/**
  What the protocol's decisions come down to in the headers of the files: when
  a handoff is held, when a role waits, which work a retry or a deletion means,
  which files make a batch, and what the scripts write.
 */
module HandoffHeaders {
  import opened Options
  import opened Lexicographic
  import opened HandoffText
  import opened HandoffProtocol

  ghost predicate Says(m: Message, field: string, value: string) {
    field in m.headers && m.headers[field] == value
  }

  /** Every header but those named, and the body, are the same. */
  ghost predicate SameBut(m: Message, m': Message, fields: set<string>) {
    m'.body == m.body && forall f :: f !in fields ==> Field(m', f) == Field(m, f)
  }

  // ------------------------------------------------------------------- decisions

  /** Held are git handoffs from the master of a pack with a specifier, to one recipient, without approval. */
  lemma HeldMeans(w: Swarm, m: Message)
    ensures ShouldHold(w, m) <==>
      && Says(m, "type", "git_handoff") && "specifier" in w.roles
      && (if w.master.Some? then Says(m, "from", w.master.value) else "from" !in m.headers)
      && |RecipientList(m.headers)| == 1
      && ("approved" in m.headers ==> IsBlank(m.headers["approved"]))
  {}

  /** A role waits while a git handoff of its own is queued or held. */
  lemma WaitsMeans(t: Tree, r: string)
    ensures Active(t, r) <==>
      (!IsBlank(r) &&
       ((exists n :: n in At(t, Outbox) && Says(At(t, Outbox)[n], "type", "git_handoff") && Says(At(t, Outbox)[n], "from", r))
        || (exists n :: n in At(t, Pending) && Says(At(t, Pending)[n], "type", "git_handoff") && Says(At(t, Pending)[n], "from", r))))
  {}

  /** A file's task goes by its task_id, or by its name if it has no id or an empty one. */
  ghost predicate GoesBy(m: Message, key: string) {
    if "task_id" in m.headers && m.headers["task_id"] != "" then m.headers["task_id"] == key else Says(m, "task", key)
  }

  /** A file is of the work of `m` if it goes by what `m` goes by, or by the task name of `m`. */
  lemma SameTaskMeans(x: Message, m: Message)
    ensures SameTask(x, m) <==> exists key :: !IsBlank(key) && GoesBy(x, key) && (GoesBy(m, key) || Says(m, "task", key))
  {
    if SameTask(x, m) {
      var key := TaskKey(x).value;
      assert !IsBlank(key) && GoesBy(x, key) && (GoesBy(m, key) || Says(m, "task", key));
    }
  }

  /** A file's priority is its header's, or 50 without one. */
  ghost predicate HasPriority(m: Message, priority: string) {
    if "priority" in m.headers then m.headers["priority"] == priority else priority == "50"
  }

  lemma PriorityMeans(m: Message, priority: string)
    ensures Priority(m) == priority <==> HasPriority(m, priority)
  {}

  /** Whoever has nothing in process may send a git handoff for any task it names. */
  lemma SendsWithoutWork(w: Swarm, t: Tree, r: string, m: Message)
    requires At(t, InProcess(r)) == map[] && Batches(t, r) == {} && Says(m, "type", "git_handoff")
    ensures MaySend(w, t, r, m) <==> r in w.roles && Says(m, "from", r) && exists key :: !IsBlank(key) && GoesBy(m, key)
  {
    if MaySend(w, t, r, m) { assert GoesBy(m, TaskKey(m).value); }
  }

  /** With two tasks or two batches in process, one of each, or a batch without files, no git handoff may be sent. */
  lemma NoneSendsFromAmbiguousWork(w: Swarm, t: Tree, r: string, m: Message)
    requires Says(m, "type", "git_handoff")
    requires
      || |At(t, InProcess(r))| > 1 || |Batches(t, r)| > 1 || (At(t, InProcess(r)) != map[] && Batches(t, r) != {})
      || exists b :: b in Batches(t, r) && At(t, InBatch(r, b)) == map[]
    ensures !MaySend(w, t, r, m)
  {}

  /** Whoever has a task in process may send one for that task only; a file without a task sets no limit. */
  lemma SendsForCurrentTask(w: Swarm, t: Tree, r: string, m: Message, n: string, x: Message)
    requires At(t, InProcess(r)) == map[n := x] && Batches(t, r) == {} && Says(m, "type", "git_handoff")
    ensures MaySend(w, t, r, m) <==>
      && r in w.roles && Says(m, "from", r)
      && exists key :: !IsBlank(key) && GoesBy(m, key) && forall k :: GoesBy(x, k) ==> k == key
  {
    assert First(At(t, InProcess(r)).Keys) == n;
    assert forall k :: GoesBy(x, k) <==> TaskKey(x) == Some(k);
    assert forall k :: GoesBy(m, k) <==> TaskKey(m) == Some(k);
  }

  /** With a batch in process it is the task of the batch's least file. */
  lemma SendsForCurrentBatch(w: Swarm, t: Tree, r: string, m: Message, b: string, n: string)
    requires At(t, InProcess(r)) == map[] && Batches(t, r) == {b} && Says(m, "type", "git_handoff")
    requires IsLeast(n, At(t, InBatch(r, b)).Keys)
    ensures MaySend(w, t, r, m) <==>
      && r in w.roles && Says(m, "from", r)
      && exists key :: !IsBlank(key) && GoesBy(m, key) && forall k :: GoesBy(At(t, InBatch(r, b))[n], k) ==> k == key
  {
    var files := At(t, InBatch(r, b));
    assert First(Batches(t, r)) == b;
    FirstIsLeast(n, files.Keys);
    Antisymmetric(First(files.Keys), n);
    assert forall k :: GoesBy(files[n], k) <==> TaskKey(files[n]) == Some(k);
    assert forall k :: GoesBy(m, k) <==> TaskKey(m) == Some(k);
  }

  // ---------------------------------------------------------------- what is written

  ghost predicate IsCopy(m: Message, x: Message, r: string, now: string) {
    SameBut(m, x, {"recipient", "enqueued_at"}) && Says(x, "recipient", r) && Says(x, "enqueued_at", now)
  }

  ghost predicate IsTakenFile(m: Message, x: Message, now: string, head: string) {
    SameBut(m, x, {"dequeued_at", "task_base_commit"}) && Says(x, "dequeued_at", now) && Says(x, "task_base_commit", head)
  }

  ghost predicate IsClosedFile(m: Message, x: Message, now: string) {
    SameBut(m, x, {"completed_at"}) && Says(x, "completed_at", now)
  }

  lemma StampsMean(m: Message, r: string, now: string, head: string)
    ensures IsCopy(m, Delivered(m, r, now), r, now)
    ensures IsTakenFile(m, Stamped(m, now, head), now, head)
    ensures IsClosedFile(m, Closed(m, now), now)
  {}

  /** The note a retry writes: to the sender, for its task, with the base to work from if there was one. */
  lemma RetryNoteSays(m: Message, id: string)
    ensures
      var x := RetryNote(m, id);
      && Says(x, "from", "(Retry)") && Says(x, "to", if "from" in m.headers then m.headers["from"] else "")
      && Says(x, "priority", "50") && Says(x, "type", "note") && Says(x, "task_id", id)
      && Says(x, "task", if "task" in m.headers then m.headers["task"] else id)
      && (if "task_base_commit" in m.headers && m.headers["task_base_commit"] != ""
          then Says(x, "task_base_commit", m.headers["task_base_commit"]) else "task_base_commit" !in x.headers)
      && x.headers.Keys - {"task_base_commit"} == {"from", "to", "priority", "type", "task_id", "task"}
      && x.body == "Retry audit.\n"
  {}

  // A retry's file name: words stay, and each gap between them becomes one underscore.

  ghost predicate IsWord(s: string) {
    forall i :: 0 <= i < |s| ==> '0' <= s[i] <= '9' || 'A' <= s[i] <= 'Z' || 'a' <= s[i] <= 'z'
  }

  ghost predicate IsGap(s: string) {
    forall i :: 0 <= i < |s| ==> !('0' <= s[i] <= '9' || 'A' <= s[i] <= 'Z' || 'a' <= s[i] <= 'z')
  }

  lemma {:induction false} WordStays(word: string, rest: string, inRun: bool)
    requires IsWord(word) && word != []
    ensures Sanitized(word + rest, inRun) == word + Sanitized(rest, false)
  {
    assert (word + rest)[1..] == word[1..] + rest && word == [word[0]] + word[1..];
    if |word| > 1 {
      WordStays(word[1..], rest, false);
      assert [word[0]] + (word[1..] + Sanitized(rest, false)) == word + Sanitized(rest, false);
    } else {
      assert word[1..] + rest == rest;
    }
  }

  lemma {:induction false} GapIsOneUnderscore(gap: string, rest: string, inRun: bool)
    requires IsGap(gap) && gap != []
    ensures Sanitized(gap + rest, inRun) == (if inRun then [] else "_") + Sanitized(rest, true)
  {
    assert (gap + rest)[1..] == gap[1..] + rest;
    if |gap| > 1 {
      GapIsOneUnderscore(gap[1..], rest, true);
      assert [] + Sanitized(rest, true) == Sanitized(rest, true);
    } else {
      assert gap[1..] + rest == rest;
    }
  }

  lemma RetryNameIs(id: string)
    ensures RetryName(id) == "50_retry_" + Sanitized(id, false) + ".handoff"
    ensures Sanitized([], false) == [] && Sanitized([], true) == []
  {
    assert "50_retry_" + Sanitized(id, false) + ".handoff" == "50_retry_" + (Sanitized(id, false) + ".handoff");
  }
}
