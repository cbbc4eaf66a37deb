/**
  The scripts of the handoff protocol as they act on the file tree, one file
  at a time. Each is proved to leave the tree that HandoffProtocol gives for
  its step, so what HandoffSafety and HandoffLedger prove of runs holds of
  them.
 */
module HandoffFiles {
  import opened Options
  import opened Lexicographic
  import opened HandoffText
  import opened HandoffProtocol
  import opened HandoffHeaders

  lemma FirstIs(first: string, names: set<string>)
    requires IsFirst(first, names)
    ensures First(names) == first
  {
    Antisymmetric(first, First(names));
  }

  /** The first file name, as a sorted listing gives it. */
  method FirstOf(names: set<string>) returns (first: string, sorted: seq<string>)
    requires names != {}
    ensures first == First(names) && IsSorted(sorted) && forall n :: n in sorted <==> n in names
  {
    sorted := Sorted(names);
    var any :| any in names;
    assert any in sorted;
    first := sorted[0];
    forall n | n in names ensures AtMost(first, n) {
      var i :| 0 <= i < |sorted| && sorted[i] == n;
      if i == 0 { Total(n, n); }
    }
    FirstIs(first, names);
  }

  lemma BatchBegins(t: Tree, r: string, b: string, now: string, head: string)
    requires New(r) in t
    ensures BatchStarted(t, r, b, {}, now, head) == t[InBatch(r, b) := map[]]
  {
    var started := BatchStarted(t, r, b, {}, now, head);
    assert started[InBatch(r, b)] == map[];
    assert started[New(r)] == t[New(r)];
  }

  lemma PartBegins(t: Tree, r: string, b: string, now: string)
    requires InBatch(r, b) in t
    ensures BatchPart(t, r, b, {}, now) == t[DoneBatch(r, b) := map[]]
  {
    var part := BatchPart(t, r, b, {}, now);
    assert part[DoneBatch(r, b)] == map[];
    assert part[InBatch(r, b)] == t[InBatch(r, b)];
  }

  lemma BatchGrows(t: Tree, r: string, b: string, names: set<string>, n: string, now: string, head: string)
    requires names <= At(t, New(r)).Keys && n in At(t, New(r)) && n !in names
    ensures
      var t' := BatchStarted(t, r, b, names, now, head);
      && n in At(t', New(r)) && At(t', New(r))[n] == At(t, New(r))[n]
      && Put(Drop(t', New(r), n), InBatch(r, b), n, Stamped(At(t, New(r))[n], now, head))
           == BatchStarted(t, r, b, names + {n}, now, head)
  {
    var t' := Put(Drop(BatchStarted(t, r, b, names, now, head), New(r), n), InBatch(r, b), n, Stamped(At(t, New(r))[n], now, head));
    var whole := BatchStarted(t, r, b, names + {n}, now, head);
    assert t'[New(r)] == whole[New(r)];
    assert t'[InBatch(r, b)] == whole[InBatch(r, b)];
  }

  lemma PartGrows(t: Tree, r: string, b: string, names: set<string>, n: string, now: string)
    requires names <= At(t, InBatch(r, b)).Keys && n in At(t, InBatch(r, b)) && n !in names
    ensures
      var t' := BatchPart(t, r, b, names, now);
      && n in At(t', InBatch(r, b)) && At(t', InBatch(r, b))[n] == At(t, InBatch(r, b))[n]
      && Put(Drop(t', InBatch(r, b), n), DoneBatch(r, b), n, Closed(At(t, InBatch(r, b))[n], now))
           == BatchPart(t, r, b, names + {n}, now)
  {
    var t' := Put(Drop(BatchPart(t, r, b, names, now), InBatch(r, b), n), DoneBatch(r, b), n, Closed(At(t, InBatch(r, b))[n], now));
    var whole := BatchPart(t, r, b, names + {n}, now);
    assert t'[InBatch(r, b)] == whole[InBatch(r, b)];
    assert t'[DoneBatch(r, b)] == whole[DoneBatch(r, b)];
  }

  // ------------------------------------------------------ what becomes of a file

  function Dated(n: string, now: string): string { now + "_" + n }

  /** File n left the outbox for a free name k of `to`, with its content; nothing there was overwritten, no other queue touched. */
  ghost predicate WentTo(t: Tree, t': Tree, n: string, to: Dir, k: string) {
    && n in At(t, Outbox) && k !in At(t, to) && At(t', to) == At(t, to)[k := At(t, Outbox)[n]]
    && At(t', Outbox) == At(t, Outbox) - {n}
    && forall d :: IsQueue(d) && d != Outbox && d != to ==> At(t', d) == At(t, d)
  }

  /** File n is still in the outbox, as both its names are taken where failures go. */
  ghost predicate Stuck(t: Tree, t': Tree, n: string, now: string) {
    {n, Dated(n, now)} <= At(t, Failed).Keys && forall d :: IsQueue(d) ==> At(t', d) == At(t, d)
  }

  ghost predicate SameInboxes(t: Tree, t': Tree) {
    forall d :: !IsQueue(d) ==> At(t', d) == At(t, d)
  }

  lemma MoveIntoMoves(t: Tree, n: string, to: Dir, now: string)
    requires n in At(t, Outbox) && (to == Pending || to == Sent || to == Failed)
    ensures MoveInto(t, n, to, now).None? <==> {n, Dated(n, now)} <= At(t, to).Keys
    ensures
      var moved := MoveInto(t, n, to, now);
      moved.Some? ==> SameInboxes(t, moved.value) && WentTo(t, moved.value, n, to, if n in At(t, to) then Dated(n, now) else n)
  {}

  /** The role's new directory is as it was, or has gained the copy for it: body and headers of `m`, the two delivery headers apart. */
  ghost predicate SameOrCopy(t: Tree, t': Tree, n: string, m: Message, rs: seq<string>, r: string, now: string) {
    || At(t', New(r)) == At(t, New(r))
    || (r in rs && n !in At(t, New(r)) && n in At(t', New(r))
        && At(t', New(r)) == At(t, New(r))[n := At(t', New(r))[n]] && IsCopy(m, At(t', New(r))[n], r, now))
  }

  /** New copies of n, each for a recipient that had no file of that name, and nothing else in any inbox. */
  ghost predicate OnlyCopies(t: Tree, t': Tree, n: string, m: Message, rs: seq<string>, now: string) {
    && (forall d: Dir :: !d.New? && !IsQueue(d) ==> At(t', d) == At(t, d))
    && forall r :: SameOrCopy(t, t', n, m, rs, r, now)
  }

  lemma {:induction false} CopiesAre(w: Swarm, t: Tree, n: string, m: Message, rs: seq<string>, quiet: nat, now: string, r: string)
    ensures
      var (t', all) := WriteCopies(w, t, n, m, rs, quiet, now);
      && (At(t', New(r)) == At(t, New(r))
          || (r in rs && n !in At(t, New(r)) && At(t', New(r)) == At(t, New(r))[n := Delivered(m, r, now)]))
      && (all && r in rs ==> r in w.roles && n in At(t', New(r)))
      && (n in At(t, New(r)) ==> n in At(t', New(r)))
    decreases |rs|
  {
    if rs != [] && rs[0] in w.roles && quiet > 0 {
      CopiesAre(w, WriteCopy(t, n, m, rs[0], now), n, m, rs[1..], quiet - 1, now, r);
    }
  }

  /**
    What one pass of the daemon does with a file of the outbox: it is held, and
    nobody hears of it; or it is sent, and every recipient is a role that has a
    file of its name; or it has failed, perhaps after some copies. It keeps its
    content and overwrites nothing, and no inbox gains anything but its copies.
   */
  ghost predicate Handled(w: Swarm, t: Tree, t': Tree, n: string, now: string)
    requires n in At(t, Outbox)
  {
    var m := At(t, Outbox)[n];
    var rs := RecipientList(m.headers);
    && OnlyCopies(t, t', n, m, rs, now)
    && (ShouldHold(w, m) ==> SameInboxes(t, t'))
    && (Stuck(t, t', n, now)
        || (exists k :: (k == n || k == Dated(n, now)) && WentTo(t, t', n, Failed, k))
        || (ShouldHold(w, m) && exists k :: (k == n || k == Dated(n, now)) && WentTo(t, t', n, Pending, k))
        || (!ShouldHold(w, m) && rs != [] && (forall r :: r in rs ==> r in w.roles && n in At(t', New(r)))
            && exists k :: (k == n || k == Dated(n, now)) && WentTo(t, t', n, Sent, k)))
  }

  lemma FailHandles(t: Tree, n: string, now: string)
    requires n in At(t, Outbox)
    ensures SameInboxes(t, FailFile(t, n, now))
    ensures
      var t' := FailFile(t, n, now);
      Stuck(t, t', n, now) || exists k :: (k == n || k == Dated(n, now)) && WentTo(t, t', n, Failed, k)
  {
    MoveIntoMoves(t, n, Failed, now);
  }

  lemma MoveHandles(t: Tree, n: string, to: Dir, now: string)
    requires n in At(t, Outbox) && (to == Pending || to == Sent)
    ensures SameInboxes(t, MoveOrFail(t, n, to, now))
    ensures
      var t' := MoveOrFail(t, n, to, now);
      || Stuck(t, t', n, now)
      || (exists k :: (k == n || k == Dated(n, now)) && WentTo(t, t', n, Failed, k))
      || (exists k :: (k == n || k == Dated(n, now)) && WentTo(t, t', n, to, k))
  {
    MoveIntoMoves(t, n, to, now);
    FailHandles(t, n, now);
  }

  lemma CopiesHandle(w: Swarm, t: Tree, n: string, m: Message, rs: seq<string>, quiet: nat, now: string)
    ensures
      var (t', all) := WriteCopies(w, t, n, m, rs, quiet, now);
      && OnlyCopies(t, t', n, m, rs, now) && (forall d :: IsQueue(d) ==> At(t', d) == At(t, d))
      && (all ==> forall r :: r in rs ==> r in w.roles && n in At(t', New(r)))
  {
    var t' := WriteCopies(w, t, n, m, rs, quiet, now).0;
    forall d: Dir | !d.New? ensures At(t', d) == At(t, d) { CopiesGoToNew(w, t, n, m, rs, quiet, now, d); }
    forall r
      ensures SameOrCopy(t, t', n, m, rs, r, now)
      ensures WriteCopies(w, t, n, m, rs, quiet, now).1 && r in rs ==> r in w.roles && n in At(t', New(r))
    {
      CopiesAre(w, t, n, m, rs, quiet, now, r);
      StampsMean(m, r, now, "");
    }
  }

  /** The queues of `t` are those of `t1`, so what happens to n after its copies happens to it from `t`. */
  lemma AfterCopies(t: Tree, t1: Tree, t': Tree, n: string, to: Dir, k: string, now: string)
    requires forall d :: IsQueue(d) ==> At(t1, d) == At(t, d)
    requires to == Pending || to == Sent || to == Failed
    ensures WentTo(t1, t', n, to, k) ==> WentTo(t, t', n, to, k)
    ensures Stuck(t1, t', n, now) ==> Stuck(t, t', n, now)
  {}

  lemma ProcessHandles(w: Swarm, t: Tree, n: string, weather: Weather, now: string)
    requires n in At(t, Outbox)
    ensures Handled(w, t, Processed(w, t, n, weather, now), n, now)
  {
    var m := At(t, Outbox)[n];
    var rs := RecipientList(m.headers);
    if ShouldHold(w, m) {
      MoveHandles(t, n, Pending, now);
    } else if rs == [] || weather.boardFails {
      FailHandles(t, n, now);
    } else {
      DeliveryHandles(w, t, n, weather.quiet, now);
    }
  }

  lemma DeliveryHandles(w: Swarm, t: Tree, n: string, quiet: nat, now: string)
    requires n in At(t, Outbox) && !ShouldHold(w, At(t, Outbox)[n]) && RecipientList(At(t, Outbox)[n].headers) != []
    ensures Handled(w, t, Processed(w, t, n, Weather(false, quiet), now), n, now)
  {
    var m := At(t, Outbox)[n];
    var rs := RecipientList(m.headers);
    var (t1, all) := WriteCopies(w, t, n, m, rs, quiet, now);
    var t' := Processed(w, t, n, Weather(false, quiet), now);
    CopiesHandle(w, t, n, m, rs, quiet, now);
    assert IsQueue(Outbox);
    if all { MoveHandles(t1, n, Sent, now); } else { FailHandles(t1, n, now); }
    AfterCopies(t, t1, t', n, Sent, n, now);
    AfterCopies(t, t1, t', n, Sent, Dated(n, now), now);
    AfterCopies(t, t1, t', n, Failed, n, now);
    AfterCopies(t, t1, t', n, Failed, Dated(n, now), now);
    forall r ensures SameOrCopy(t, t', n, m, rs, r, now) { assert SameOrCopy(t, t1, n, m, rs, r, now); }
    assert OnlyCopies(t, t', n, m, rs, now);
  }

  /** A recipient gets its copy if all before it in the list, and it, are roles, and the notifications before its own went out. */
  lemma {:induction false} CopyWrittenIff(w: Swarm, t: Tree, n: string, m: Message, rs: seq<string>, quiet: nat, now: string, r: string)
    ensures
      n in At(WriteCopies(w, t, n, m, rs, quiet, now).0, New(r)) <==>
        n in At(t, New(r)) || exists i :: 0 <= i < |rs| && i <= quiet && rs[i] == r && AllKnown(w, rs, i + 1)
    decreases |rs|
  {
    if rs != [] && rs[0] in w.roles {
      var t1 := WriteCopy(t, n, m, rs[0], now);
      if rs[0] == r { assert rs[0] == r && AllKnown(w, rs, 1); }
      if quiet > 0 {
        CopyWrittenIff(w, t1, n, m, rs[1..], quiet - 1, now, r);
        if i :| 0 <= i < |rs[1..]| && i <= quiet - 1 && rs[1..][i] == r && AllKnown(w, rs[1..], i + 1) {
          assert rs[i + 1] == r && AllKnown(w, rs, i + 2);
        }
        if i :| 0 <= i < |rs| && i <= quiet && rs[i] == r && AllKnown(w, rs, i + 1) {
          if i > 0 { assert rs[1..][i - 1] == r && AllKnown(w, rs[1..], i); }
        }
      }
    }
  }

  /** The first n of the list are roles. */
  ghost predicate AllKnown(w: Swarm, rs: seq<string>, n: int) {
    forall i :: 0 <= i < n && i < |rs| ==> rs[i] in w.roles
  }

  lemma {:induction false} AllWrittenIff(w: Swarm, t: Tree, n: string, m: Message, rs: seq<string>, quiet: nat, now: string)
    ensures WriteCopies(w, t, n, m, rs, quiet, now).1 <==> AllKnown(w, rs, |rs|) && |rs| <= quiet
    decreases |rs|
  {
    if rs != [] && rs[0] in w.roles && quiet > 0 {
      AllWrittenIff(w, WriteCopy(t, n, m, rs[0], now), n, m, rs[1..], quiet - 1, now);
      if AllKnown(w, rs[1..], |rs[1..]|) {
        forall i | 0 <= i < |rs| ensures rs[i] in w.roles { assert i > 0 ==> rs[i] == rs[1..][i - 1]; }
      }
      if AllKnown(w, rs, |rs|) {
        forall i | 0 <= i < |rs[1..]| ensures rs[1..][i] in w.roles { assert rs[1..][i] == rs[i + 1]; }
      }
    } else if rs != [] && rs[0] !in w.roles {
      assert !AllKnown(w, rs, |rs|);
    }
  }

  /**
    Where a file of the outbox goes when its name is free everywhere: held if
    it is one to hold; else sent exactly if it lists recipients, all of them
    are roles, the board takes the update and every notification goes out;
    else failed.
   */
  lemma WhereItGoes(w: Swarm, t: Tree, n: string, weather: Weather, now: string)
    requires n in At(t, Outbox) && n !in At(t, Pending) && n !in At(t, Sent) && n !in At(t, Failed)
    ensures
      var (m, t') := (At(t, Outbox)[n], Processed(w, t, n, weather, now));
      var rs := RecipientList(m.headers);
      var held := ShouldHold(w, m);
      var sent := !held && rs != [] && AllKnown(w, rs, |rs|) && !weather.boardFails && |rs| <= weather.quiet;
      && n !in At(t', Outbox)
      && (n in At(t', Pending) <==> held) && (n in At(t', Sent) <==> sent) && (n in At(t', Failed) <==> !held && !sent)
  {
    var m := At(t, Outbox)[n];
    var rs := RecipientList(m.headers);
    AllWrittenIff(w, t, n, m, rs, weather.quiet, now);
    CopiesHandle(w, t, n, m, rs, weather.quiet, now);
    assert IsQueue(Outbox) && IsQueue(Pending) && IsQueue(Sent) && IsQueue(Failed);
  }

  /** A file no longer pending is pending after the daemon's next pass exactly when it is one to hold. */
  lemma HeldAgainIff(w: Swarm, t: Tree, n: string, weather: Weather, now: string)
    requires n in At(t, Outbox) && n !in At(t, Pending)
    ensures n in At(Processed(w, t, n, weather, now), Pending) <==> ShouldHold(w, At(t, Outbox)[n])
  {
    ProcessHandles(w, t, n, weather, now);
    MoveIntoMoves(t, n, Pending, now);
    assert IsQueue(Pending);
  }

  /**
    Approving a held handoff releases it exactly when its text takes the mark;
    otherwise the daemon's next pass puts it back among the held ones.
   */
  lemma ApprovalReleasesIff(w: Swarm, t: Tree, n: string, content: string, weather: Weather, now: string)
    requires n in At(t, Pending) && ParseMessage(content) == At(t, Pending)[n] && ShouldHold(w, At(t, Pending)[n])
    ensures
      var t1 := Put(Drop(t, Pending, n), Outbox, n, ParseMessage(WithApproved(content)));
      && (n in At(Processed(w, t1, n, weather, now), Pending) <==> !TakesMark(content))
      && ('\r' !in content ==> t1 == Approved(t, n, TakesMark(content)))
  {
    var t1 := Put(Drop(t, Pending, n), Outbox, n, ParseMessage(WithApproved(content)));
    ApprovalTakesIff(content);
    HeldAgainIff(w, t1, n, weather, now);
  }

  // -------------------------------------------------------------------- deletion

  ghost function RemainsOf(files: Files, d: Dir, m: Message, rest: set<Place>): Files {
    map k | k in files && (!SameTask(files[k], m) || Place(d, k) in rest) :: files[k]
  }

  /** The tree while the files of a task are being deleted, `rest` of them to go. */
  ghost function PartlyDeleted(t: Tree, m: Message, rest: set<Place>): Tree {
    map d | d in t :: RemainsOf(t[d], d, m, rest)
  }

  lemma AllRemain(t: Tree, m: Message, rest: set<Place>)
    requires forall d, k :: d in t && k in t[d] && SameTask(t[d][k], m) ==> Place(d, k) in rest
    ensures PartlyDeleted(t, m, rest) == t
  {
    forall d | d in t ensures RemainsOf(t[d], d, m, rest) == t[d] {}
  }

  lemma NoneRemain(t: Tree, m: Message)
    ensures PartlyDeleted(t, m, {}) == Deleted(t, m)
  {
    forall d | d in t ensures RemainsOf(t[d], d, m, {}) == WithoutTask(t[d], m) {}
  }

  lemma OneDeleted(t: Tree, m: Message, rest: set<Place>, p: Place)
    requires p in rest && p.dir in t && p.name in t[p.dir] && SameTask(t[p.dir][p.name], m)
    ensures Drop(PartlyDeleted(t, m, rest), p.dir, p.name) == PartlyDeleted(t, m, rest - {p})
  {
    var dropped, target := Drop(PartlyDeleted(t, m, rest), p.dir, p.name), PartlyDeleted(t, m, rest - {p});
    forall d | d in t ensures dropped[d] == target[d] {
      forall k ensures Place(d, k) in rest - {p} <==> Place(d, k) in rest && (d != p.dir || k != p.name) {}
    }
  }

  // ---------------------------------------------------------------- taken and done

  /** The least name of `from` went to `to`, over a file of its name if there was one; all else is as it was. */
  ghost predicate LeastMoved(t: Tree, t': Tree, from: Dir, to: Dir, n: string) {
    && IsLeast(n, At(t, from).Keys)
    && At(t', from) == At(t, from) - {n} && n in At(t', to) && At(t', to) - {n} == At(t, to) - {n}
    && forall d :: d != from && d != to ==> Same(t, t', d)
  }

  ghost predicate TaskTaken(t: Tree, t': Tree, r: string, n: string, now: string, head: string) {
    && LeastMoved(t, t', New(r), InProcess(r), n) && At(t', InProcess(r)).Keys == {n}
    && var x := At(t', InProcess(r))[n];
       IsTakenFile(At(t, New(r))[n], x, now, head)
  }

  ghost predicate TaskFinished(t: Tree, t': Tree, r: string, n: string, now: string) {
    && LeastMoved(t, t', InProcess(r), Completed(r), n) && At(t', InProcess(r)) == map[]
    && var x := At(t', Completed(r))[n];
       IsClosedFile(At(t, InProcess(r))[n], x, now)
  }

  lemma TakenTask(t: Tree, r: string, n: string, now: string, head: string)
    requires IsFirst(n, At(t, New(r)).Keys) && At(t, InProcess(r)) == map[]
    ensures TaskTaken(t, TaskStarted(t, r, n, now, head), r, n, now, head)
  {
    FirstIsLeast(n, At(t, New(r)).Keys);
    StampsMean(At(t, New(r))[n], "", now, head);
  }

  /** Of two new files the one whose name has the larger character where they first differ is not the one taken. */
  lemma LargerNameWaits(t: Tree, t': Tree, r: string, n: string, now: string, head: string, a: string, b: string, k: nat)
    requires TaskTaken(t, t', r, n, now, head) && a in At(t, New(r)) && b in At(t, New(r)) && SmallerAt(a, b, k)
    ensures n != b
  {
    if n == b {
      AtMostIff(a, b);
      AtMostIff(b, a);
      assert ComesBefore(b, a);
      Antisymmetric(a, b);
    }
  }

  lemma FinishedTask(t: Tree, r: string, n: string, now: string)
    requires At(t, InProcess(r)).Keys == {n} && IsFirst(n, At(t, InProcess(r)).Keys)
    ensures TaskFinished(t, TaskClosed(t, r, n, now), r, n, now)
  {
    FirstIsLeast(n, At(t, InProcess(r)).Keys);
    StampsMean(At(t, InProcess(r))[n], "", now, "");
  }

  /** The new files of one priority, the least name's, went stamped into the new batch b; the others, and all else, stayed. */
  ghost predicate BatchTaken(t: Tree, t': Tree, r: string, b: string, first: string, priority: string, now: string, head: string) {
    var files, rest, batch := At(t, New(r)), At(t', New(r)), At(t', InBatch(r, b));
    && IsLeast(first, files.Keys) && HasPriority(files[first], priority) && InBatch(r, b) in t'
    && rest.Keys !! batch.Keys && rest.Keys + batch.Keys == files.Keys
    && (forall n :: n in rest ==> !HasPriority(files[n], priority) && rest[n] == files[n])
    && (forall n :: n in batch ==> HasPriority(files[n], priority) && IsTakenFile(files[n], batch[n], now, head))
    && forall d :: d != New(r) && d != InBatch(r, b) ==> Same(t, t', d)
  }

  /** The files of batch b went stamped into a completed batch of its name, and its directory is gone. */
  ghost predicate BatchFinished(t: Tree, t': Tree, r: string, b: string, now: string) {
    var files, closed := At(t, InBatch(r, b)), At(t', DoneBatch(r, b));
    && InBatch(r, b) in t && InBatch(r, b) !in t' && DoneBatch(r, b) !in t && DoneBatch(r, b) in t'
    && files != map[] && closed.Keys == files.Keys
    && (forall n :: n in closed ==> IsClosedFile(files[n], closed[n], now))
    && forall d :: d != InBatch(r, b) && d != DoneBatch(r, b) ==> Same(t, t', d)
  }

  lemma StartedIsTaken(t: Tree, r: string, b: string, first: string, now: string, head: string)
    requires IsFirst(first, At(t, New(r)).Keys)
    ensures
      var priority := Priority(At(t, New(r))[first]);
      BatchTaken(t, BatchStarted(t, r, b, WithPriority(At(t, New(r)), priority), now, head), r, b, first, priority, now, head)
  {
    var files := At(t, New(r));
    var priority := Priority(files[first]);
    FirstIsLeast(first, files.Keys);
    forall n | n in files ensures Priority(files[n]) == priority <==> HasPriority(files[n], priority) { PriorityMeans(files[n], priority); }
    forall n | n in files ensures IsTakenFile(files[n], Stamped(files[n], now, head), now, head) { StampsMean(files[n], "", now, head); }
  }

  lemma ClosedIsFinished(t: Tree, r: string, b: string, now: string)
    requires InBatch(r, b) in t && DoneBatch(r, b) !in t && At(t, InBatch(r, b)) != map[]
    ensures BatchFinished(t, BatchClosed(t, r, b, now), r, b, now)
  {
    var files := At(t, InBatch(r, b));
    forall n | n in files ensures IsClosedFile(files[n], Closed(files[n], now), now) { StampsMean(files[n], "", now, ""); }
  }

  /** All directories but these are as they were. */
  ghost predicate SameElsewhere(t: Tree, t': Tree, touched: set<Dir>) {
    forall d :: d !in touched ==> At(t', d) == At(t, d)
  }

  /** A file of the work of `m` is in process, by itself or in a batch. */
  ghost predicate AtWork(t: Tree, r: string, m: Message) {
    (exists n :: HasTask(t, InProcess(r), n, m)) || exists b, n :: HasTask(t, InBatch(r, b), n, m)
  }

  /** Some file of the work is completed, by itself; or in a batch, with none by itself. */
  ghost predicate DoneAt(t: Tree, r: string, m: Message, p: Place) {
    && HasTask(t, p.dir, p.name, m)
    && (p.dir == Completed(r) || ((exists b :: p.dir == DoneBatch(r, b)) && forall n :: !HasTask(t, Completed(r), n, m)))
  }

  ghost predicate NeverDone(t: Tree, r: string, m: Message) {
    (forall n :: !HasTask(t, Completed(r), n, m)) && forall b, n :: !HasTask(t, DoneBatch(r, b), n, m)
  }

  /**
    What a retry does for the work of `m`: nothing if the role is at it; else
    it puts a completed file of it back in process, content and name kept; else,
    there being none, it writes a note for it, if it has a name.
   */
  ghost predicate GivenBack(t: Tree, t': Tree, r: string, m: Message, done: Option<Place>) {
    if AtWork(t, r, m) then SameElsewhere(t, t', {})
    else if done.Some? then
      var (d, n) := (done.value.dir, done.value.name);
      && DoneAt(t, r, m, done.value) && At(t', d) == At(t, d) - {n}
      && At(t', InProcess(r)) == At(t, InProcess(r))[n := At(t, d)[n]] && SameElsewhere(t, t', {d, InProcess(r)})
    else
      && NeverDone(t, r, m) && SameElsewhere(t, t', {InProcess(r)})
      && if TaskKey(m).Some? && !IsBlank(TaskKey(m).value) then
           At(t', InProcess(r)) == At(t, InProcess(r))[RetryName(TaskKey(m).value) := RetryNote(m, TaskKey(m).value)]
         else At(t', InProcess(r)) == At(t, InProcess(r))
  }

  lemma RestoredIsGivenBack(t: Tree, r: string, m: Message, done: Option<Place>)
    requires IsChoice(t, r, m, done)
    ensures GivenBack(t, WorkRestored(t, r, m, done), r, m, done)
  {
    AtWorkIff(t, r, m);
    if done.Some? && done.value.dir.DoneBatch? { assert done.value.dir == DoneBatch(r, done.value.dir.batch); }
  }

  lemma AtWorkIff(t: Tree, r: string, m: Message)
    ensures AtWork(t, r, m) <==> WorkingOn(t, r, m)
  {
    if d, n :| IsCurrent(d, r) && HasTask(t, d, n, m) {
      if d.InBatch? { assert HasTask(t, InBatch(r, d.batch), n, m); } else { assert HasTask(t, InProcess(r), n, m); }
    }
    if n :| HasTask(t, InProcess(r), n, m) { assert IsCurrent(InProcess(r), r); }
    if b, n :| HasTask(t, InBatch(r, b), n, m) { assert IsCurrent(InBatch(r, b), r); }
  }

  class HandoffTree {
    const swarm: Swarm
    var dirs: Tree

    constructor (swarm: Swarm)
      ensures this.swarm == swarm && dirs == map[]
    {
      this.swarm := swarm;
      dirs := map[];
    }

    // ------------------------------------------------------------------ daemon

    /** `move-with-collision`: it overwrites nothing, and fails only when even the dated name is taken. */
    method MoveWithCollision(n: string, to: Dir, now: string) returns (ok: bool)
      requires n in At(dirs, Outbox) && (to == Pending || to == Sent || to == Failed)
      modifies this`dirs
      ensures !ok <==> {n, Dated(n, now)} <= old(At(dirs, to)).Keys
      ensures ok ==> WentTo(old(dirs), dirs, n, to, if n in old(At(dirs, to)) then Dated(n, now) else n)
      ensures SameInboxes(old(dirs), dirs) && (!ok ==> dirs == old(dirs))
      ensures dirs == if ok then MoveInto(old(dirs), n, to, now).value else old(dirs)
    {
      MoveIntoMoves(dirs, n, to, now);
      var m := At(dirs, Outbox)[n];
      if n !in At(dirs, to) {
        dirs := Put(Drop(dirs, Outbox, n), to, n, m);
        return true;
      }
      if now + "_" + n in At(dirs, to) {
        return false;
      }
      dirs := Put(Drop(dirs, Outbox, n), to, now + "_" + n, m);
      ok := true;
    }

    /** `fail!`, inside the poll loop that only logs its failure. */
    method Fail(n: string, now: string)
      requires n in At(dirs, Outbox)
      modifies this`dirs
      ensures Stuck(old(dirs), dirs, n, now) || exists k :: (k == n || k == Dated(n, now)) && WentTo(old(dirs), dirs, n, Failed, k)
      ensures SameInboxes(old(dirs), dirs) && dirs == FailFile(old(dirs), n, now)
    {
      FailHandles(dirs, n, now);
      var _ := MoveWithCollision(n, Failed, now);
    }

    /** The copies of `deliver!`, one recipient after the other. */
    method CopyToRecipients(n: string, m: Message, rs: seq<string>, quiet: nat, now: string) returns (all: bool)
      modifies this`dirs
      ensures (dirs, all) == WriteCopies(swarm, old(dirs), n, m, rs, quiet, now)
    {
      var calls := quiet;
      for i := 0 to |rs|
        invariant WriteCopies(swarm, dirs, n, m, rs[i..], calls, now) == WriteCopies(swarm, old(dirs), n, m, rs, quiet, now)
      {
        assert rs[i..][0] == rs[i] && rs[i..][1..] == rs[i + 1..];
        if rs[i] !in swarm.roles {
          return false;
        }
        if n !in At(dirs, New(rs[i])) {
          dirs := Put(dirs, New(rs[i]), n, Delivered(m, rs[i], now));
        }
        if calls == 0 {
          return false;
        }
        calls := calls - 1;
      }
      assert rs[|rs|..] == [];
      all := true;
    }

    method ProcessOutboxFile(n: string, weather: Weather, now: string)
      requires n in At(dirs, Outbox)
      modifies this`dirs
      ensures Handled(swarm, old(dirs), dirs, n, now)
      ensures dirs == Processed(swarm, old(dirs), n, weather, now)
    {
      ProcessHandles(swarm, dirs, n, weather, now);
      var m := At(dirs, Outbox)[n];
      var rs := RecipientList(m.headers);
      var moved := false;
      if ShouldHold(swarm, m) {
        moved := MoveWithCollision(n, Pending, now);
      } else if rs != [] && !weather.boardFails {
        CopiesGoToNew(swarm, dirs, n, m, rs, weather.quiet, now, Outbox);
        var all := CopyToRecipients(n, m, rs, weather.quiet, now);
        if all { moved := MoveWithCollision(n, Sent, now); }
      }
      if !moved { Fail(n, now); }
    }

    // ---------------------------------------------------------------- operator

    /** The file is queued again with no header changed but the mark, and once marked is not held again. */
    method Approve(n: string, marked: bool)
      requires n in At(dirs, Pending)
      modifies this`dirs
      ensures n !in At(dirs, Pending) && At(dirs, Pending) == old(At(dirs, Pending)) - {n}
      ensures n in At(dirs, Outbox) && At(dirs, Outbox) - {n} == old(At(dirs, Outbox)) - {n}
      ensures SameBut(old(At(dirs, Pending)[n]), At(dirs, Outbox)[n], {"approved"})
      ensures !marked ==> At(dirs, Outbox)[n] == old(At(dirs, Pending)[n])
      ensures marked ==> AlreadyApproved(At(dirs, Outbox)[n].headers) && !ShouldHold(swarm, At(dirs, Outbox)[n])
      ensures forall d :: d != Pending && d != Outbox ==> Same(old(dirs), dirs, d)
      ensures dirs == Approved(old(dirs), n, marked)
    {
      var m := At(dirs, Pending)[n];
      if marked {
        MarkedIsApproved(m);
        m := Marked(m);
      }
      dirs := Drop(dirs, Pending, n);
      dirs := Put(dirs, Outbox, n, m);
    }

    /** `drop-task-handoffs!`, file by file. */
    method DeleteApproval(n: string)
      requires n in At(dirs, Pending)
      modifies this`dirs
      ensures forall d, k :: k in At(dirs, d) <==> k in old(At(dirs, d)) && !SameTask(old(At(dirs, d)[k]), old(At(dirs, Pending)[n]))
      ensures forall d, k :: k in At(dirs, d) ==> k in old(At(dirs, d)) && At(dirs, d)[k] == old(At(dirs, d)[k])
      ensures dirs == Deleted(old(dirs), old(At(dirs, Pending)[n]))
    {
      ghost var t := dirs;
      var m := At(dirs, Pending)[n];
      var rest := set d, k | d in dirs && k in dirs[d] && SameTask(dirs[d][k], m) :: Place(d, k);
      AllRemain(t, m, rest);
      while rest != {}
        invariant forall p :: p in rest ==> p.dir in t && p.name in t[p.dir] && SameTask(t[p.dir][p.name], m)
        invariant dirs == PartlyDeleted(t, m, rest)
        decreases rest
      {
        var p :| p in rest;
        OneDeleted(t, m, rest, p);
        dirs := Drop(dirs, p.dir, p.name);
        rest := rest - {p};
      }
      NoneRemain(t, m);
      forall d ensures At(dirs, d) == WithoutTask(At(t, d), m) { DeletedAt(t, m, d); }
    }

    /** The completed file a retry takes: single files are listed before batched ones. */
    method ChooseDone(r: string, m: Message) returns (done: Option<Place>)
      ensures IsChoice(dirs, r, m, done)
    {
      var single := set n | n in At(dirs, Completed(r)) && HasTask(dirs, Completed(r), n, m);
      if single != {} {
        var n :| n in single;
        return Some(Place(Completed(r), n));
      }
      var batched := set d, n | d in dirs && n in dirs[d] && IsDone(d, r) && HasTask(dirs, d, n, m) :: Place(d, n);
      if batched == {} {
        forall d, n | IsDone(d, r) ensures !HasTask(dirs, d, n, m) {
          assert HasTask(dirs, d, n, m) ==> Place(d, n) in batched;
        }
        return None;
      }
      var p :| p in batched;
      done := Some(p);
      assert forall n :: HasTask(dirs, Completed(r), n, m) ==> n in single;
    }

    /** `restore-task-base!`. */
    method RestoreTaskBase(r: string, m: Message) returns (done: Option<Place>)
      modifies this`dirs
      ensures GivenBack(old(dirs), dirs, r, m, done)
      ensures IsChoice(old(dirs), r, m, done) && dirs == WorkRestored(old(dirs), r, m, done)
    {
      ghost var t := dirs;
      done := ChooseDone(r, m);
      RestoredIsGivenBack(t, r, m, done);
      var current := set d, n | d in dirs && n in dirs[d] && IsCurrent(d, r) && HasTask(dirs, d, n, m) :: Place(d, n);
      if current != {} {
        var p :| p in current;
        assert HasTask(dirs, p.dir, p.name, m);
        return;
      }
      forall d, n | IsCurrent(d, r) ensures !HasTask(dirs, d, n, m) {
        assert HasTask(dirs, d, n, m) ==> Place(d, n) in current;
      }
      match done
      case Some(p) =>
        var x := At(dirs, p.dir)[p.name];
        dirs := Drop(dirs, p.dir, p.name);
        dirs := Put(dirs, InProcess(r), p.name, x);
      case None =>
        var id := TaskKey(m);
        if id.Some? && !IsBlank(id.value) {
          dirs := Put(dirs, InProcess(r), RetryName(id.value), RetryNote(m, id.value));
        }
    }

    /** `retry-approval!`. A sender that is not a role has no inbox to give the work back to. */
    method RetryApproval(n: string) returns (done: Option<Place>)
      requires n in At(dirs, Pending)
      modifies this`dirs
      ensures IsChoice(Drop(old(dirs), Pending, n), Sender(At(old(dirs), Pending)[n]), At(old(dirs), Pending)[n], done)
      ensures
        var (t, m) := (Drop(old(dirs), Pending, n), At(old(dirs), Pending)[n]);
        if Sender(m) in swarm.roles then GivenBack(t, dirs, Sender(m), m, done) else dirs == t
      ensures dirs == Retried(swarm, old(dirs), n, done)
    {
      var m := At(dirs, Pending)[n];
      dirs := Drop(dirs, Pending, n);
      if Sender(m) in swarm.roles {
        done := RestoreTaskBase(Sender(m), m);
      } else {
        done := ChooseDone(Sender(m), m);
      }
    }

    // ----------------------------------------------------------------- helpers

    /** Only with nothing in process and nothing outbound is a task taken: the least new name, stamped, into the empty directory. */
    method ReadyForNextTask(r: string, now: string, head: string) returns (outcome: Outcome)
      modifies this`dirs
      ensures
        var (batches, current, files) := old((Batches(dirs, r), At(dirs, InProcess(r)), At(dirs, New(r))));
        && (outcome == Refused <==> batches != {} || |current| > 1)
        && (outcome == Resumed <==> batches == {} && |current| == 1)
        && (outcome == Waiting <==> batches == {} && current == map[] && old(Active(dirs, r)))
        && (outcome == NoTask <==> batches == {} && current == map[] && !old(Active(dirs, r)) && files == map[])
        && (outcome == Started <==> batches == {} && current == map[] && !old(Active(dirs, r)) && files != map[])
      ensures outcome == Started ==> exists n :: TaskTaken(old(dirs), dirs, r, n, now, head)
      ensures outcome != Started ==> dirs == old(dirs)
      ensures (dirs, outcome) == TaskReady(old(dirs), r, now, head)
    {
      var current, files := At(dirs, InProcess(r)), At(dirs, New(r));
      if Batches(dirs, r) != {} || |current| > 1 { return Refused; }
      if |current| == 1 { return Resumed; }
      if Active(dirs, r) { return Waiting; }
      if files == map[] { return NoTask; }
      var first, _ := FirstOf(files.Keys);
      TakenTask(dirs, r, first, now, head);
      dirs := Drop(dirs, New(r), first);
      dirs := Put(dirs, InProcess(r), first, Stamped(files[first], now, head));
      assert TaskTaken(old(dirs), dirs, r, first, now, head);
      outcome := Started;
    }

    /** `b` is a directory name not in use, as `new-batch-dir` finds one. */
    method ReadyForNextBatch(r: string, b: string, now: string, head: string) returns (outcome: Outcome)
      requires InBatch(r, b) !in dirs
      modifies this`dirs
      ensures
        var (batches, current, files) := old((Batches(dirs, r), At(dirs, InProcess(r)), At(dirs, New(r))));
        && (outcome == Refused <==>
              current != map[] || |batches| > 1 || exists c :: batches == {c} && old(At(dirs, InBatch(r, c))) == map[])
        && (outcome == Resumed <==> current == map[] && exists c :: batches == {c} && old(At(dirs, InBatch(r, c))) != map[])
        && (outcome == Waiting <==> batches == {} && current == map[] && old(Active(dirs, r)))
        && (outcome == NoTask <==> batches == {} && current == map[] && !old(Active(dirs, r)) && files == map[])
        && (outcome == Started <==> batches == {} && current == map[] && !old(Active(dirs, r)) && files != map[])
      ensures outcome == Started ==> exists first, priority :: BatchTaken(old(dirs), dirs, r, b, first, priority, now, head)
      ensures outcome != Started ==> dirs == old(dirs)
      ensures (dirs, outcome) == BatchReady(old(dirs), r, b, now, head)
    {
      ghost var t := dirs;
      var files, batches := At(dirs, New(r)), Batches(dirs, r);
      if At(dirs, InProcess(r)) != map[] || |batches| > 1 { return Refused; }
      if |batches| == 1 {
        var current, _ := FirstOf(batches);
        OnlyOne(batches, current);
        if At(dirs, InBatch(r, current)) == map[] { return Refused; }
        return Resumed;
      }
      if Active(dirs, r) { return Waiting; }
      if files == map[] { return NoTask; }
      var first, names := FirstOf(files.Keys);
      StartedIsTaken(dirs, r, b, first, now, head);
      TakeBatch(r, b, names, Priority(files[first]), now, head);
      assert BatchTaken(t, dirs, r, b, first, Priority(files[first]), now, head);
      outcome := Started;
    }

    /** The files of one priority, moved and stamped in turn. */
    method TakeBatch(r: string, b: string, names: seq<string>, priority: string, now: string, head: string)
      requires InBatch(r, b) !in dirs && New(r) in dirs
      requires IsSorted(names) && forall n :: n in names <==> n in dirs[New(r)]
      modifies this`dirs
      ensures dirs == BatchStarted(old(dirs), r, b, WithPriority(old(dirs)[New(r)], priority), now, head)
    {
      var files := dirs[New(r)];
      ghost var t := dirs;
      ghost var taken: set<string> := {};
      dirs := dirs[InBatch(r, b) := map[]];
      BatchBegins(t, r, b, now, head);
      for i := 0 to |names|
        invariant forall n :: n in taken <==> n in names[..i] && Priority(files[n]) == priority
        invariant dirs == BatchStarted(t, r, b, taken, now, head)
      {
        var n := names[i];
        assert n in names && n !in names[..i];
        if Priority(files[n]) == priority {
          BatchGrows(t, r, b, taken, n, now, head);
          var m := files[n];
          dirs := Put(Drop(dirs, New(r), n), InBatch(r, b), n, Stamped(m, now, head));
          taken := taken + {n};
        }
      }
      assert names[..|names|] == names;
      assert taken == WithPriority(files, priority);
    }

    /** Only a single task in process, beside no batch, is completed: it leaves the directory empty. */
    method DoneWithCurrentTask(r: string, now: string) returns (outcome: Outcome)
      modifies this`dirs
      ensures outcome == Finished <==> old(Batches(dirs, r)) == {} && |old(At(dirs, InProcess(r)))| == 1
      ensures outcome == NoTask <==> old(Batches(dirs, r)) == {} && old(At(dirs, InProcess(r))) == map[]
      ensures outcome == Finished ==> exists n :: TaskFinished(old(dirs), dirs, r, n, now)
      ensures outcome != Finished ==> dirs == old(dirs)
      ensures (dirs, outcome) == TaskDone(old(dirs), r, now)
    {
      var current := At(dirs, InProcess(r));
      if Batches(dirs, r) != {} || |current| > 1 { return Refused; }
      if current == map[] { return NoTask; }
      var first, _ := FirstOf(current.Keys);
      OnlyOne(current.Keys, first);
      FinishedTask(dirs, r, first, now);
      dirs := Drop(dirs, InProcess(r), first);
      dirs := Put(dirs, Completed(r), first, Closed(current[first], now));
      assert TaskFinished(old(dirs), dirs, r, first, now);
      outcome := Finished;
    }

    method DoneWithCurrentBatch(r: string, now: string) returns (outcome: Outcome)
      modifies this`dirs
      ensures
        var (batches, current) := old((Batches(dirs, r), At(dirs, InProcess(r))));
        && (outcome == NoTask <==> batches == {} && current == map[])
        && (outcome == Finished <==>
              (current == map[] && exists c :: batches == {c} && old(At(dirs, InBatch(r, c))) != map[] && old(DoneBatch(r, c) !in dirs)))
        && (outcome == Finished || outcome == NoTask || outcome == Refused)
      ensures outcome == Finished ==> exists b :: BatchFinished(old(dirs), dirs, r, b, now)
      ensures outcome != Finished ==> dirs == old(dirs)
      ensures (dirs, outcome) == BatchDone(old(dirs), r, now)
    {
      ghost var t := dirs;
      var batches := Batches(dirs, r);
      if At(dirs, InProcess(r)) != map[] || |batches| > 1 { return Refused; }
      if batches == {} { return NoTask; }
      var b, _ := FirstOf(batches);
      OnlyOne(batches, b);
      if At(dirs, InBatch(r, b)) == map[] || DoneBatch(r, b) in dirs { return Refused; }
      ClosedIsFinished(dirs, r, b, now);
      CloseBatch(r, b, now);
      assert BatchFinished(t, dirs, r, b, now);
      outcome := Finished;
    }

    /** The files of the batch, stamped and moved in turn, and then its directory deleted. */
    method CloseBatch(r: string, b: string, now: string)
      requires InBatch(r, b) in dirs && DoneBatch(r, b) !in dirs
      modifies this`dirs
      ensures dirs == BatchClosed(old(dirs), r, b, now)
    {
      var files := dirs[InBatch(r, b)];
      var names := Sorted(files.Keys);
      ghost var t := dirs;
      ghost var closed: set<string> := {};
      dirs := dirs[DoneBatch(r, b) := map[]];
      PartBegins(t, r, b, now);
      for i := 0 to |names|
        invariant forall n :: n in closed <==> n in names[..i]
        invariant dirs == BatchPart(t, r, b, closed, now)
      {
        var n := names[i];
        assert n in names && n !in names[..i];
        PartGrows(t, r, b, closed, n, now);
        dirs := Put(Drop(dirs, InBatch(r, b), n), DoneBatch(r, b), n, Closed(files[n], now));
        closed := closed + {n};
      }
      assert names[..|names|] == names;
      assert closed == files.Keys;
      dirs := dirs - {InBatch(r, b)};
    }
  }
}
