/**
  The per-key sliding-window limiter of the API (src/shiden/api/auth/ratelimit.py).

  A thread reads the monotonic clock *before* it takes the lock, so the stamps
  reach the deque in lock order, which need not be clock order.  A run is
  therefore a sequence of attempts in lock order, each carrying the stamp its
  thread read.  Time is real-valued.
 */
module RateLimiter {

  datatype RateLimitResult = RateLimitResult(allowed: bool, limit: int, remaining: int, retryAfter: int)

  /** One call of `check`, as it is served under the lock. */
  datatype Attempt = Attempt(keyId: int, limit: int, now: real)

  /** The attempts a limiter has served, in lock order. */
  datatype Run = Fresh | Then(before: Run, last: Attempt)

  // ---------------------------------------------------------------- one call

  /** The deque once every expired hit at its head is popped. */
  function Prune(hits: seq<real>, cutoff: real): seq<real> {
    if hits != [] && hits[0] <= cutoff then Prune(hits[1..], cutoff) else hits
  }

  /** Does a key with this deque get through at `now`? */
  predicate Admits(hits: seq<real>, limit: int, window: real, now: real) {
    |Prune(hits, now - window)| < limit
  }

  /** The deque after the call. */
  function After(hits: seq<real>, limit: int, window: real, now: real): seq<real> {
    Prune(hits, now - window) + if Admits(hits, limit, window, now) then [now] else []
  }

  /** The source's `int(...)` on a float truncates toward zero. */
  function Truncate(x: real): int {
    if x >= 0.0 then x.Floor else -((-x).Floor)
  }

  function RetryAfter(oldest: real, window: real, now: real): int {
    var wait := Truncate(oldest + window - now) + 1;
    if wait > 1 then wait else 1
  }

  function Lookup(hits: map<int, seq<real>>, keyId: int): seq<real> {
    if keyId in hits then hits[keyId] else []
  }

  // ------------------------------------------------------------- whole runs

  /** The deques after a run of attempts, starting from a fresh limiter. */
  function Deques(run: Run, window: real): map<int, seq<real>> {
    match run
    case Fresh => map[]
    case Then(before, a) =>
      var hits := Deques(before, window);
      hits[a.keyId := After(Lookup(hits, a.keyId), a.limit, window, a.now)]
  }

  function DequeOf(run: Run, window: real, keyId: int): seq<real> {
    Lookup(Deques(run, window), keyId)
  }

  /** The stamps of the attempts of one key that got through, in lock order. */
  function Admitted(run: Run, window: real, keyId: int): seq<real> {
    match run
    case Fresh => []
    case Then(before, a) =>
      Admitted(before, window, keyId) +
      if a.keyId == keyId && Admits(DequeOf(before, window, keyId), a.limit, window, a.now)
      then [a.now] else []
  }

  /** The part of `stamps` in the half-open window (lo, hi]. */
  function InWindow(stamps: seq<real>, lo: real, hi: real): seq<real> {
    if stamps == [] then []
    else (if lo < stamps[0] <= hi then [stamps[0]] else []) + InWindow(stamps[1..], lo, hi)
  }

  /** Every attempt of the key carries the same limit. */
  predicate FixedLimit(run: Run, keyId: int, limit: int) {
    run.Then? ==> FixedLimit(run.before, keyId, limit) && (run.last.keyId == keyId ==> run.last.limit == limit)
  }

  /** No stamp of the key is later than `top`. */
  predicate NoLaterThan(run: Run, keyId: int, top: real) {
    run.Then? ==> NoLaterThan(run.before, keyId, top) && (run.last.keyId == keyId ==> run.last.now <= top)
  }

  /** No stamp of the key lags a stamp that was processed earlier by more than `lag`. */
  predicate LagsAtMost(run: Run, keyId: int, lag: real) {
    run.Then? ==>
      && LagsAtMost(run.before, keyId, lag)
      && (run.last.keyId == keyId ==> NoLaterThan(run.before, keyId, run.last.now + lag))
  }

  // ------------------------------------------------------------ the limiter

  class SlidingWindowLimiter {
    const window: real
    var hits: map<int, seq<real>>
    /** The attempts the current state remembers. */
    ghost var run: Run

    ghost predicate Valid() reads this { hits == Deques(run, window) }

    constructor (windowSeconds: real)
      ensures Valid() && window == windowSeconds && run == Fresh
    {
      window := windowSeconds;
      hits := map[];
      run := Fresh;
    }

    /** The key store refuses limits below one (src/shiden/api/auth/store.py:157-158). */
    method Check(keyId: int, limit: int, now: real) returns (r: RateLimitResult)
      requires Valid() && limit >= 1
      modifies this
      ensures Valid() && run == Then(old(run), Attempt(keyId, limit, now))
      ensures hits == old(hits)[keyId := hits[keyId]]
      ensures r.limit == limit
      ensures r.allowed <==> Admits(old(Lookup(hits, keyId)), limit, window, now)
      ensures r.allowed ==>
        hits[keyId] == Prune(old(Lookup(hits, keyId)), now - window) + [now] &&
        r.remaining == limit - |hits[keyId]| >= 0 && r.retryAfter == 0
      ensures !r.allowed ==>
        hits[keyId] == Prune(old(Lookup(hits, keyId)), now - window) && |hits[keyId]| >= limit &&
        r.remaining == 0 && r.retryAfter == RetryAfter(hits[keyId][0], window, now)
    {
      ghost var before := Lookup(hits, keyId);
      var cutoff := now - window;
      var deque := if keyId in hits then hits[keyId] else [];
      while deque != [] && deque[0] <= cutoff
        invariant Prune(deque, cutoff) == Prune(before, cutoff)
        decreases |deque|
      {
        deque := deque[1..];
      }
      run := Then(run, Attempt(keyId, limit, now));
      assert deque == Prune(before, cutoff);
      if |deque| >= limit {
        assert deque + [] == deque;
        hits := hits[keyId := deque];
        var wait := Truncate(deque[0] + window - now) + 1;
        return RateLimitResult(false, limit, 0, if wait > 1 then wait else 1);
      }
      deque := deque + [now];
      hits := hits[keyId := deque];
      return RateLimitResult(true, limit, limit - |deque|, 0);
    }

    /** Forgets one key as if it had never called, and touches no other. */
    method Reset(keyId: int)
      requires Valid()
      modifies this
      ensures Valid() && run == Without(old(run), keyId)
      ensures hits == old(hits) - {keyId}
    {
      WithoutForgets(run, window, keyId);
      run := Without(run, keyId);
      hits := hits - {keyId};
    }

    method ResetAll()
      requires Valid()
      modifies this
      ensures Valid() && run == Fresh && hits == map[]
    {
      run := Fresh;
      hits := map[];
    }
  }

  /** The run with every attempt of one key struck out. */
  function Without(run: Run, keyId: int): Run {
    match run
    case Fresh => Fresh
    case Then(before, a) =>
      if a.keyId == keyId then Without(before, keyId) else Then(Without(before, keyId), a)
  }

  lemma {:induction false} WithoutForgets(run: Run, window: real, keyId: int)
    ensures Deques(Without(run, keyId), window) == Deques(run, window) - {keyId}
  {
    if run.Then? {
      WithoutForgets(run.before, window, keyId);
    }
  }

  // ----------------------------------------------------- what the 429 promises

  lemma {:induction false} PruneIsSuffix(hits: seq<real>, cutoff: real) returns (popped: nat)
    ensures popped <= |hits| && Prune(hits, cutoff) == hits[popped..]
    ensures forall i :: 0 <= i < popped ==> hits[i] <= cutoff
    ensures popped < |hits| ==> hits[popped] > cutoff
  {
    if hits != [] && hits[0] <= cutoff {
      var rest := PruneIsSuffix(hits[1..], cutoff);
      popped := rest + 1;
      assert forall i :: 0 < i < popped ==> hits[i] == hits[1..][i - 1];
    } else {
      popped := 0;
    }
  }

  /**
    A refused key that stays quiet is let through after `wait` seconds exactly
    when so many of its oldest hits have left the window by then that fewer
    than the limit remain. Any wait more than a second shorter than advertised
    fails; and where the deque holds no more than the limit, the advertised
    whole seconds are enough.
   */
  lemma RetryAfterIsExact(hits: seq<real>, limit: int, window: real, now: real, wait: real)
    requires limit >= 1 && wait >= 0.0 && !Admits(hits, limit, window, now)
    ensures
      var left := After(hits, limit, window, now);
      var retry := RetryAfter(left[0], window, now);
      && (Admits(left, limit, window, now + wait) <==>
            forall i :: 0 <= i <= |left| - limit ==> wait >= left[i] + window - now)
      && retry >= 1
      && (wait < (retry - 1) as real ==> !Admits(left, limit, window, now + wait))
      && (|left| == limit && wait == retry as real ==> Admits(left, limit, window, now + wait))
  {
    var left := After(hits, limit, window, now);
    var popped := PruneIsSuffix(hits, now - window);
    var later := PruneIsSuffix(left, now + wait - window);
    assert left == hits[popped..];
    assert left[0] > now - window;
    assert Admits(left, limit, window, now + wait) <==> later > |left| - limit;
  }

  // ------------------------------------------------- safety over whole runs

  ghost predicate AllAtMost(stamps: seq<real>, top: real) {
    forall q :: 0 <= q < |stamps| ==> stamps[q] <= top
  }

  /**
    The deque is what is left of the admitted stamps once a prefix is dropped,
    and every dropped stamp had left the window of the latest attempt so far.
   */
  lemma {:induction false} DequeIsSuffix(run: Run, window: real, keyId: int, top: real) returns (popped: seq<real>)
    requires NoLaterThan(run, keyId, top)
    ensures Admitted(run, window, keyId) == popped + DequeOf(run, window, keyId)
    ensures AllAtMost(popped, top - window)
    decreases run, 0
  {
    popped := [];
    if run.Then? {
      popped := DequeIsSuffix(run.before, window, keyId, top);
      if run.last.keyId == keyId {
        var cold := ColdAndLive(run.before, window, keyId, top, run.last.now);
        popped := cold;
      }
    }
  }

  /** At `now` the admitted stamps fall into expired ones and the pruned deque. */
  lemma {:induction false} ColdAndLive(run: Run, window: real, keyId: int, top: real, now: real) returns (cold: seq<real>)
    requires NoLaterThan(run, keyId, top)
    ensures Admitted(run, window, keyId) == cold + Prune(DequeOf(run, window, keyId), now - window)
    ensures AllAtMost(cold, (if top >= now then top else now) - window)
    decreases run, 1
  {
    var deque := DequeOf(run, window, keyId);
    var earlier := DequeIsSuffix(run, window, keyId, top);
    var more := PruneIsSuffix(deque, now - window);
    cold := earlier + deque[..more];
    ColdJoins(earlier, deque, more, (if top >= now then top else now) - window);
  }

  lemma ColdJoins(earlier: seq<real>, deque: seq<real>, more: nat, cutoff: real)
    requires more <= |deque| && AllAtMost(earlier, cutoff) && AllAtMost(deque[..more], cutoff)
    ensures earlier + deque == earlier + deque[..more] + deque[more..]
    ensures AllAtMost(earlier + deque[..more], cutoff)
  {}

  lemma {:induction false} ColdPrefix(cold: seq<real>, rest: seq<real>, lo: real, hi: real)
    requires AllAtMost(cold, lo)
    ensures InWindow(cold + rest, lo, hi) == InWindow(rest, lo, hi)
  {
    if cold == [] {
      assert cold + rest == rest;
    } else {
      assert (cold + rest)[1..] == cold[1..] + rest;
      ColdPrefix(cold[1..], rest, lo, hi);
    }
  }

  lemma {:induction false} OneMoreInWindow(stamps: seq<real>, stamp: real, lo: real, hi: real)
    ensures InWindow(stamps + [stamp], lo, hi) == InWindow(stamps, lo, hi) + if lo < stamp <= hi then [stamp] else []
  {
    if stamps == [] {
      assert (stamps + [stamp])[1..] == [];
    } else {
      assert (stamps + [stamp])[1..] == stamps[1..] + [stamp];
      OneMoreInWindow(stamps[1..], stamp, lo, hi);
    }
  }

  lemma {:induction false} InWindowSize(stamps: seq<real>, lo: real, hi: real)
    ensures |InWindow(stamps, lo, hi)| <= |stamps|
  {
    if stamps != [] { InWindowSize(stamps[1..], lo, hi); }
  }

  lemma {:induction false} AllInWindow(stamps: seq<real>, lo: real, hi: real)
    requires forall q :: 0 <= q < |stamps| ==> lo < stamps[q] <= hi
    ensures InWindow(stamps, lo, hi) == stamps
  {
    if stamps != [] { AllInWindow(stamps[1..], lo, hi); }
  }

  /**
    A stamp that lags by at most `lag` finds everything that a window of
    length `window - lag` around it can hold still in its pruned deque.
   */
  lemma WindowIsStillThere(run: Run, window: real, keyId: int, now: real, lag: real, lo: real, hi: real)
    requires lag >= 0.0 && NoLaterThan(run, keyId, now + lag)
    requires now <= hi && hi - lo <= window - lag
    ensures |InWindow(Admitted(run, window, keyId), lo, hi)| <= |Prune(DequeOf(run, window, keyId), now - window)|
  {
    var live := Prune(DequeOf(run, window, keyId), now - window);
    var cold := ColdAndLive(run, window, keyId, now + lag, now);
    ColdPrefix(cold, live, lo, hi);
    InWindowSize(live, lo, hi);
  }

  /**
    Safety of every interleaving: when stamps lag by at most `lag`, no
    half-open window of length `window - lag` ever holds more than `limit`
    admitted attempts of one key, whatever the other keys do.
   */
  lemma {:induction false} SkewedWindowBound(
      run: Run, window: real, keyId: int, limit: int, lag: real, lo: real, hi: real)
    requires limit >= 1 && lag >= 0.0 && hi - lo <= window - lag
    requires FixedLimit(run, keyId, limit) && LagsAtMost(run, keyId, lag)
    ensures |InWindow(Admitted(run, window, keyId), lo, hi)| <= limit
  {
    if run.Then? {
      var before, a := run.before, run.last;
      SkewedWindowBound(before, window, keyId, limit, lag, lo, hi);
      var adm := Admitted(before, window, keyId);
      assert adm + [] == adm;
      OneMoreInWindow(adm, a.now, lo, hi);
      if a.keyId == keyId && lo < a.now <= hi {
        WindowIsStillThere(before, window, keyId, a.now, lag, lo, hi);
      }
    }
  }

  ghost predicate SortedUpTo(stamps: seq<real>, top: real) {
    && (forall p, q :: 0 <= p < q < |stamps| ==> stamps[p] <= stamps[q])
    && AllAtMost(stamps, top)
  }

  lemma {:induction false} AdmittedIsSorted(run: Run, window: real, keyId: int, top: real)
    requires LagsAtMost(run, keyId, 0.0) && NoLaterThan(run, keyId, top)
    ensures SortedUpTo(Admitted(run, window, keyId), top)
  {
    if run.Then? {
      AdmittedIsSorted(run.before, window, keyId, if run.last.keyId == keyId then run.last.now else top);
    }
  }

  lemma SortedTail(cold: seq<real>, live: seq<real>, top: real)
    requires SortedUpTo(cold + live, top)
    ensures SortedUpTo(live, top)
  {
    assert forall q :: 0 <= q < |live| ==> live[q] == (cold + live)[|cold| + q];
  }

  /** With stamps in lock order the pruned deque is exactly the admitted history of the window. */
  lemma DequeIsTheWindow(run: Run, window: real, keyId: int, now: real)
    requires window >= 0.0 && LagsAtMost(run, keyId, 0.0) && NoLaterThan(run, keyId, now)
    ensures Prune(DequeOf(run, window, keyId), now - window)
         == InWindow(Admitted(run, window, keyId), now - window, now)
  {
    var lo, live := now - window, Prune(DequeOf(run, window, keyId), now - window);
    var cold := ColdAndLive(run, window, keyId, now, now);
    var more := PruneIsSuffix(DequeOf(run, window, keyId), lo);
    AdmittedIsSorted(run, window, keyId, now);
    SortedTail(cold, live, now);
    ColdPrefix(cold, live, lo, now);
    AllInWindow(live, lo, now);
  }

  /** A key whose limit never changes holds no more hits than its limit, whatever the clocks do. */
  lemma {:induction false} DequeWithinLimit(run: Run, window: real, keyId: int, limit: int)
    requires limit >= 1 && FixedLimit(run, keyId, limit)
    ensures |DequeOf(run, window, keyId)| <= limit
  {
    if run.Then? {
      DequeWithinLimit(run.before, window, keyId, limit);
      var popped := PruneIsSuffix(DequeOf(run.before, window, keyId), run.last.now - window);
    }
  }

  /**
    Exactness with stamps in lock order: an attempt is refused if and only if
    the window that ends with it holds as many admitted attempts as the limit;
    the deque then holds just those, so the advertised wait is enough.
   */
  lemma RefusedIffWindowIsFull(run: Run, window: real, keyId: int, limit: int, now: real)
    requires window >= 0.0 && limit >= 1 && FixedLimit(run, keyId, limit)
    requires LagsAtMost(run, keyId, 0.0) && NoLaterThan(run, keyId, now)
    ensures
      var deque := DequeOf(run, window, keyId);
      var admitted := InWindow(Admitted(run, window, keyId), now - window, now);
      && |admitted| <= limit
      && (!Admits(deque, limit, window, now) <==> |admitted| == limit)
      && (!Admits(deque, limit, window, now) ==> |After(deque, limit, window, now)| == limit)
  {
    DequeWithinLimit(run, window, keyId, limit);
    DequeIsTheWindow(run, window, keyId, now);
    var popped := PruneIsSuffix(DequeOf(run, window, keyId), now - window);
  }

  // --------------------------------------- when the advertised window is exact

  ghost predicate WithinLimit(run: Run, window: real, keyId: int, limit: int, hi: real) {
    |InWindow(Admitted(run, window, keyId), hi - window, hi)| <= limit
  }

  /** What the module's documentation claims of a single worker: no full window over the limit. */
  ghost predicate WindowIsExact(window: real, limit: int, lag: real) {
    forall run: Run, keyId: int, hi: real ::
      FixedLimit(run, keyId, limit) && LagsAtMost(run, keyId, lag) ==>
        WithinLimit(run, window, keyId, limit, hi)
  }

  ghost predicate Spaced(stamps: seq<real>, window: real) {
    forall p, q :: 0 <= p < q < |stamps| ==> stamps[p] + window <= stamps[q]
  }

  lemma SinglePrune(hit: real, cutoff: real)
    ensures Prune([hit], cutoff) == if hit <= cutoff then [] else [hit]
  {
    assert [hit][1..] == [];
  }

  lemma SpacedGrows(stamps: seq<real>, stamp: real, window: real)
    requires window > 0.0 && Spaced(stamps, window)
    requires stamps != [] ==> stamps[|stamps| - 1] + window <= stamp
    ensures Spaced(stamps + [stamp], window)
  {
    assert forall p :: 0 <= p < |stamps| - 1 ==> stamps[p] + window <= stamps[|stamps| - 1];
  }

  /** The deque of a key with a limit of one: the stamp it let through last. */
  function LastOf(adm: seq<real>): seq<real> { if adm == [] then [] else [adm[|adm| - 1]] }

  /** One attempt against the limit of one. */
  lemma SingleStep(adm: seq<real>, window: real, now: real)
    requires window > 0.0 && Spaced(adm, window)
    ensures
      var adm' := adm + if Admits(LastOf(adm), 1, window, now) then [now] else [];
      After(LastOf(adm), 1, window, now) == LastOf(adm') && Spaced(adm', window)
  {
    if adm != [] { SinglePrune(adm[|adm| - 1], now - window); }
    if Admits(LastOf(adm), 1, window, now) {
      SpacedGrows(adm, now, window);
    } else {
      assert adm + [] == adm;
    }
  }

  /** With a limit of one, admitted stamps are a full window apart even when clocks are skewed. */
  lemma {:induction false} SingleSlotSpacing(run: Run, window: real, keyId: int)
    requires window > 0.0 && FixedLimit(run, keyId, 1)
    ensures DequeOf(run, window, keyId) == LastOf(Admitted(run, window, keyId))
    ensures Spaced(Admitted(run, window, keyId), window)
  {
    if run.Then? {
      var adm := Admitted(run.before, window, keyId);
      SingleSlotSpacing(run.before, window, keyId);
      if run.last.keyId == keyId {
        SingleStep(adm, window, run.last.now);
      } else {
        assert Admitted(run, window, keyId) == adm;
      }
    }
  }

  lemma {:induction false} SpacedFitOneWindow(stamps: seq<real>, window: real, hi: real)
    requires window > 0.0 && Spaced(stamps, window)
    ensures |InWindow(stamps, hi - window, hi)| <= 1
  {
    if stamps != [] {
      SpacedFitOneWindow(stamps[1..], window, hi);
      if hi - window < stamps[0] <= hi {
        NoneUpTo(stamps[1..], hi - window, hi);
      }
    }
  }

  lemma {:induction false} NoneUpTo(stamps: seq<real>, lo: real, hi: real)
    requires forall q :: 0 <= q < |stamps| ==> hi < stamps[q]
    ensures InWindow(stamps, lo, hi) == []
  {
    if stamps != [] { NoneUpTo(stamps[1..], lo, hi); }
  }

  function Zeros(n: nat): seq<real> { seq(n, _ => 0.0) }

  function Burst(n: nat, limit: int): Run {
    if n == 0 then Fresh else Then(Burst(n - 1, limit), Attempt(0, limit, 0.0))
  }

  lemma {:induction false} PruneNone(n: nat, cutoff: real)
    requires cutoff < 0.0
    ensures Prune(Zeros(n), cutoff) == Zeros(n)
  {
    assert n > 0 ==> Zeros(n)[0] == 0.0;
  }

  lemma {:induction false} PruneAll(n: nat, cutoff: real)
    requires cutoff >= 0.0
    ensures Prune(Zeros(n), cutoff) == []
  {
    if n > 0 {
      assert Zeros(n)[1..] == Zeros(n - 1);
      PruneAll(n - 1, cutoff);
    }
  }

  lemma {:induction false} BurstIsAdmitted(n: nat, limit: int, window: real)
    requires window > 0.0 && n <= limit
    ensures Admitted(Burst(n, limit), window, 0) == DequeOf(Burst(n, limit), window, 0) == Zeros(n)
    ensures FixedLimit(Burst(n, limit), 0, limit) && LagsAtMost(Burst(n, limit), 0, 0.0)
    ensures NoLaterThan(Burst(n, limit), 0, 0.0)
  {
    if n > 0 {
      BurstIsAdmitted(n - 1, limit, window);
      PruneNone(n - 1, 0.0 - window);
      assert Zeros(n - 1) + [0.0] == Zeros(n);
    }
  }

  lemma {:induction false} Relax(run: Run, keyId: int, top: real, top': real, lag: real, lag': real)
    requires NoLaterThan(run, keyId, top) && top <= top'
    requires LagsAtMost(run, keyId, lag) && lag <= lag'
    ensures NoLaterThan(run, keyId, top') && LagsAtMost(run, keyId, lag')
  {
    if run.Then? {
      Relax(run.before, keyId, top, top', lag, lag');
      if run.last.keyId == keyId {
        Relax(run.before, keyId, run.last.now + lag, run.last.now + lag', lag, lag');
      }
    }
  }

  /** A burst fills the limit; a late stamp expires it; a thread that read its clock earlier is let in. */
  function Overshoot(window: real, limit: nat, lag: real): Run {
    Then(Then(Burst(limit, limit), Attempt(0, limit, window)), Attempt(0, limit, window - lag))
  }

  lemma OvershootAdmitsAll(window: real, limit: nat, lag: real)
    requires limit >= 2 && 0.0 < lag <= window
    ensures Admitted(Overshoot(window, limit, lag), window, 0) == Zeros(limit) + [window] + [window - lag]
  {
    BurstIsAdmitted(limit, limit, window);
    PruneAll(limit, window - window);
    assert DequeOf(Overshoot(window, limit, lag).before, window, 0) == [window];
    SinglePrune(window, (window - lag) - window);
  }

  lemma SkewOvershoots(window: real, limit: nat, lag: real)
    requires limit >= 2 && 0.0 < lag <= window
    ensures
      var run := Overshoot(window, limit, lag);
      && FixedLimit(run, 0, limit) && LagsAtMost(run, 0, lag)
      && !WithinLimit(run, window, 0, limit, window - lag)
  {
    var hi := window - lag;
    BurstIsAdmitted(limit, limit, window);
    Relax(Burst(limit, limit), 0, 0.0, window, 0.0, lag);
    Relax(Burst(limit, limit), 0, 0.0, window + lag, 0.0, lag);
    OvershootAdmitsAll(window, limit, lag);
    OneMoreInWindow(Zeros(limit) + [window], hi, hi - window, hi);
    OneMoreInWindow(Zeros(limit), window, hi - window, hi);
    AllInWindow(Zeros(limit), hi - window, hi);
  }

  /**
    The documented claim holds of every interleaving exactly when clocks are
    read in lock order or the limit is one.
   */
  lemma WindowIsExactIff(window: real, limit: nat, lag: real)
    requires window > 0.0 && limit >= 1 && lag >= 0.0
    ensures WindowIsExact(window, limit, lag) <==> lag == 0.0 || limit == 1
  {
    if lag == 0.0 || limit == 1 {
      forall run: Run, keyId: int, hi: real |
        FixedLimit(run, keyId, limit) && LagsAtMost(run, keyId, lag)
        ensures WithinLimit(run, window, keyId, limit, hi)
      {
        if lag == 0.0 {
          SkewedWindowBound(run, window, keyId, limit, lag, hi - window, hi);
        } else {
          SingleSlotSpacing(run, window, keyId);
          SpacedFitOneWindow(Admitted(run, window, keyId), window, hi);
        }
      }
    } else {
      var small := if lag <= window then lag else window;
      var run := Overshoot(window, limit, small);
      SkewOvershoots(window, limit, small);
      Relax(run, 0, window, window, small, lag) by {
        BurstIsAdmitted(limit, limit, window);
        Relax(Burst(limit, limit), 0, 0.0, window, 0.0, lag);
      }
    }
  }
}
