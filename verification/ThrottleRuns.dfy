/** Whole runs of the login throttle. The reference is `Log`, which never prunes and never
    resets: every recorded failure since the last success, and those that started a lock. */
module ThrottleRuns {
  import opened SlidingWindow
  import opened LoginThrottle
  import opened Wrappers

  /** How the settings are read: each number counts as at least 1. */
  function AtLeastOne(n: int): nat {
    if n >= 1 then n else 1
  }

  /** What happens to one key, with the clock reading each call sees. */
  datatype Event = Check(at: real) | Failure(at: real) | Success(at: real)

  /** The clock is non-negative and never goes back. */
  ghost predicate Ordered(h: seq<Event>) {
    && (forall i :: 0 <= i < |h| ==> h[i].at >= 0.0)
    && (forall i, j :: 0 <= i < j < |h| ==> h[i].at <= h[j].at)
  }

  ghost predicate OrderedUpTo(h: seq<Event>, now: real) {
    Ordered(h) && now >= 0.0 && forall i :: 0 <= i < |h| ==> h[i].at <= now
  }

  /** The key's window after the run, as the code keeps it. */
  function TrackAfter(cfg: Config, h: seq<Event>): Option<Track> {
    if h == [] then None else
      var n := |h| - 1;
      var w := TrackAfter(cfg, h[..n]);
      match h[n]
      case Check(t) => AfterCheck(cfg, w, t)
      case Failure(t) => Some(AfterFailure(cfg, w.GetOr(FRESH), t))
      case Success(_) => None
  }

  // ---------------------------------------------------------------- the reference

  datatype Log = Log(recorded: seq<real>, locks: seq<real>)

  /** Some locking failure happened within the last `lockout` seconds. */
  ghost predicate LockedAt(cfg: Config, log: Log, t: real) {
    exists i :: 0 <= i < |log.locks| && log.locks[i] <= t < log.locks[i] + AtLeastOne(cfg.lockoutSeconds) as real
  }

  /** A failure at t, not during a lock, is recorded; it starts a lock when it is at least the
      max-th recorded in (t - window, t]. */
  ghost function Recorded(cfg: Config, log: Log, t: real): Log {
    var recorded := log.recorded + [t];
    Log(recorded, if Count(recorded, t - AtLeastOne(cfg.windowSeconds) as real, t) >= AtLeastOne(cfg.failures)
                  then log.locks + [t] else log.locks)
  }

  ghost function LogAfter(cfg: Config, h: seq<Event>): Log {
    if h == [] then Log([], []) else
      var n := |h| - 1;
      var log := LogAfter(cfg, h[..n]);
      match h[n]
      case Check(_) => log
      case Failure(t) => if LockedAt(cfg, log, t) then log else Recorded(cfg, log, t)
      case Success(_) => Log([], [])
  }

  // ---------------------------------------------------------------- refinement

  /** The deque is the tail of the recorded failures, nothing younger than a window was dropped. */
  ghost predicate DequeAgrees(cfg: Config, failures: seq<real>, recorded: seq<real>, now: real) {
    && Sorted(recorded) && (forall i :: 0 <= i < |recorded| ==> recorded[i] <= now)
    && |failures| <= |recorded| && failures == recorded[|recorded| - |failures|..]
    && (forall i :: 0 <= i < |recorded| - |failures| ==> recorded[i] <= now - AtLeastOne(cfg.windowSeconds) as real)
  }

  /** `lockedUntil` is the end of the last lock, or 0 once that is over; earlier locks are over. */
  ghost predicate LockAgrees(cfg: Config, until: real, locks: seq<real>, now: real) {
    if locks == [] then until == 0.0 else
      var last := locks[|locks| - 1];
      && last <= now
      && (forall i :: 0 <= i < |locks| - 1 ==> locks[i] + AtLeastOne(cfg.lockoutSeconds) as real <= last)
      && (until == last + AtLeastOne(cfg.lockoutSeconds) as real || (until == 0.0 && last + AtLeastOne(cfg.lockoutSeconds) as real <= now))
  }

  ghost predicate Agrees(cfg: Config, w: Option<Track>, log: Log, now: real) {
    && (w.None? ==> log == Log([], []))
    && (w.Some? ==> DequeAgrees(cfg, w.value.failures, log.recorded, now)
                    && LockAgrees(cfg, w.value.lockedUntil, log.locks, now))
  }

  lemma LockedIff(cfg: Config, until: real, locks: seq<real>, now: real, t: real, recorded: seq<real>)
    requires LockAgrees(cfg, until, locks, now) && 0.0 <= now <= t
    ensures until > t <==> LockedAt(cfg, Log(recorded, locks), t)
    ensures until > t ==> locks != [] && until == locks[|locks| - 1] + AtLeastOne(cfg.lockoutSeconds) as real <= now + AtLeastOne(cfg.lockoutSeconds) as real
  {
    if until > t {
      assert locks[|locks| - 1] <= t;
    }
  }

  lemma PruneAgrees(cfg: Config, w: Track, log: Log, now: real, t: real)
    requires Agrees(cfg, Some(w), log, now) && 0.0 <= now <= t
    ensures Agrees(cfg, Some(Pruned(cfg, w, t)), log, t)
    ensures |Pruned(cfg, w, t).failures| == Count(log.recorded, t - AtLeastOne(cfg.windowSeconds) as real, t)
  {
    hide Count, Prune;
    var cutoff := t - AtLeastOne(cfg.windowSeconds) as real;
    PrunedTail(log.recorded, w.failures, cutoff, cutoff);
    PruneIsTail(w.failures, cutoff);
    var live := Prune(w.failures, cutoff);
    var k := |log.recorded| - |live|;
    forall i | k <= i < |log.recorded| ensures cutoff < log.recorded[i] <= t {
      assert log.recorded[k] == live[0];
    }
    CountTail(log.recorded, k, cutoff, t);
  }

  lemma RecordAgrees(cfg: Config, p: Track, log: Log, t: real)
    requires t >= 0.0 && Agrees(cfg, Some(p), log, t) && !LockedAt(cfg, log, t)
    requires |p.failures| == Count(log.recorded, t - AtLeastOne(cfg.windowSeconds) as real, t)
    ensures var log' := Recorded(cfg, log, t);
            var full := |p.failures| + 1 >= AtLeastOne(cfg.failures);
            && DequeAgrees(cfg, p.failures + [t], log'.recorded, t)
            && LockAgrees(cfg, if full then t + AtLeastOne(cfg.lockoutSeconds) as real else p.lockedUntil, log'.locks, t)
            && (full <==> LockedAt(cfg, log', t))
  {
    hide Count;
    var log' := Recorded(cfg, log, t);
    CountConcat(log.recorded, [t], t - AtLeastOne(cfg.windowSeconds) as real, t);
    CountBounds([t], t - AtLeastOne(cfg.windowSeconds) as real, t);
    EarlierLocksOver(cfg, log, p.lockedUntil, t);
    if log'.locks != log.locks {
      assert log'.locks[|log.locks|] == t;
    }
  }

  lemma FailureAgrees(cfg: Config, w: Track, log: Log, now: real, t: real)
    requires Agrees(cfg, Some(w), log, now) && 0.0 <= now <= t
    ensures var log' := if LockedAt(cfg, log, t) then log else Recorded(cfg, log, t);
            && Agrees(cfg, Some(AfterFailure(cfg, w, t)), log', t)
            && (FailureVerdict(cfg, w, t).Locked? <==> LockedAt(cfg, log', t))
  {
    hide Count, LockAgrees, DequeAgrees, LockedAt, Pruned, Recorded;
    PruneAgrees(cfg, w, log, now, t);
    var p := Pruned(cfg, w, t);
    LockedIff(cfg, p.lockedUntil, log.locks, t, t, log.recorded);
    if !LockedAt(cfg, log, t) {
      RecordAgrees(cfg, p, log, t);
    }
  }

  lemma EarlierLocksOver(cfg: Config, log: Log, until: real, t: real)
    requires LockAgrees(cfg, until, log.locks, t) && t >= 0.0 && !LockedAt(cfg, log, t)
    ensures forall i :: 0 <= i < |log.locks| ==> log.locks[i] + AtLeastOne(cfg.lockoutSeconds) as real <= t
  {
  }

  lemma OrderedPrefix(h: seq<Event>, now: real)
    requires h != [] && OrderedUpTo(h, now)
    ensures OrderedUpTo(h[..|h| - 1], h[|h| - 1].at) && 0.0 <= h[|h| - 1].at <= now
  {
  }

  lemma AgreesLater(cfg: Config, w: Option<Track>, log: Log, now: real, later: real)
    requires Agrees(cfg, w, log, now) && now <= later
    ensures Agrees(cfg, w, log, later)
  {
    hide Count;
  }

  lemma StepAgrees(cfg: Config, h: seq<Event>, e: Event)
    requires e.at >= 0.0 && Agrees(cfg, TrackAfter(cfg, h), LogAfter(cfg, h), e.at)
    ensures Agrees(cfg, TrackAfter(cfg, h + [e]), LogAfter(cfg, h + [e]), e.at)
  {
    hide Prune, Count, Pruned, LockedAt, DequeAgrees, LockAgrees, AfterFailure, Recorded;
    assert (h + [e])[..|h|] == h;
    var w, log := TrackAfter(cfg, h), LogAfter(cfg, h);
    if e.Check? && w.Some? {
      PruneAgrees(cfg, w.value, log, e.at, e.at);
    } else if e.Failure? {
      FreshAgrees(cfg, e.at);
      FailureAgrees(cfg, w.GetOr(FRESH), log, e.at, e.at);
    }
  }

  lemma FreshAgrees(cfg: Config, now: real)
    ensures Agrees(cfg, Some(FRESH), Log([], []), now)
  {
  }

  lemma {:induction false} TrackRefinesLog(cfg: Config, h: seq<Event>, now: real)
    requires OrderedUpTo(h, now)
    ensures Agrees(cfg, TrackAfter(cfg, h), LogAfter(cfg, h), now)
  {
    hide Agrees, LogAfter, TrackAfter;
    if h == [] {
      EmptyAgrees(cfg, now);
    } else {
      var n := |h| - 1;
      OrderedPrefix(h, now);
      TrackRefinesLog(cfg, h[..n], h[n].at);
      StepAgrees(cfg, h[..n], h[n]);
      assert h[..n] + [h[n]] == h;
      AgreesLater(cfg, TrackAfter(cfg, h), LogAfter(cfg, h), h[n].at, now);
    }
  }

  lemma EmptyAgrees(cfg: Config, now: real)
    ensures Agrees(cfg, TrackAfter(cfg, []), LogAfter(cfg, []), now)
  {
  }

  /** Main result: the throttle refines its history. A check at t is refused exactly when a
      locking failure since the last success lies within the last `lockout` seconds; a failure
      at t is answered with 429 exactly when the key is locked after it. */
  lemma RefinesHistory(cfg: Config, h: seq<Event>, t: real)
    requires OrderedUpTo(h, t)
    ensures CheckVerdict(cfg, TrackAfter(cfg, h), t).Locked? <==> LockedAt(cfg, LogAfter(cfg, h), t)
    ensures FailureVerdict(cfg, TrackAfter(cfg, h).GetOr(FRESH), t).Locked?
            <==> LockedAt(cfg, LogAfter(cfg, h + [Failure(t)]), t)
  {
    hide Prune, Count;
    TrackRefinesLog(cfg, h, t);
    var w, log := TrackAfter(cfg, h), LogAfter(cfg, h);
    assert (h + [Failure(t)])[..|h|] == h;
    FailureAgrees(cfg, w.GetOr(FRESH), log, t, t);
    if w.Some? {
      PruneAgrees(cfg, w.value, log, t, t);
      LockedIff(cfg, Pruned(cfg, w.value, t).lockedUntil, log.locks, t, t, log.recorded);
    }
  }

  /** The order of stamps is needed: a check whose stamp lies before the failure that locks the key
      is refused, although its own time precedes the lock. */
  lemma StaleCheckMeetsLaterLock(cfg: Config, u: real, t: real)
    requires AtLeastOne(cfg.failures) == 1 && 0.0 <= t < u
    ensures CheckVerdict(cfg, TrackAfter(cfg, [Failure(u)]), t).Locked?
    ensures !LockedAt(cfg, LogAfter(cfg, [Failure(u)]), t)
  {
    hide Count;
    assert [Failure(u)][..0] == [];
    assert AfterFailure(cfg, FRESH, u).lockedUntil == u + AtLeastOne(cfg.lockoutSeconds) as real;
    assert LogAfter(cfg, []) == Log([], []);
    assert forall i :: 0 <= i < |LogAfter(cfg, [Failure(u)]).locks| ==> LogAfter(cfg, [Failure(u)]).locks[i] == u;
  }

  // ---------------------------------------------------------------- locks, for any stamps

  /** The clock readings of a run. Each call reads the clock before it takes the lock, so they need
      not be in order: `Stale(Stamps(h), d)` bounds how far back one may lie. */
  function Stamps(h: seq<Event>): seq<real> {
    seq(|h|, i requires 0 <= i < |h| => h[i].at)
  }

  lemma TrackStep(cfg: Config, h: seq<Event>, e: Event)
    ensures TrackAfter(cfg, h + [e]) ==
            if e.Check? then AfterCheck(cfg, TrackAfter(cfg, h), e.at)
            else if e.Failure? then Some(AfterFailure(cfg, TrackAfter(cfg, h).GetOr(FRESH), e.at))
            else None
  {
    hide AfterCheck, AfterFailure;
    assert (h + [e])[..|h|] == h;
  }

  lemma {:induction false} PruneTwice(ts: seq<real>, c1: real, c2: real)
    requires c1 <= c2
    ensures Prune(Prune(ts, c1), c2) == Prune(ts, c2)
  {
    if ts != [] && ts[0] <= c1 {
      PruneTwice(ts[1..], c1, c2);
    }
  }

  /** Attempts during a lock leave no trace, whatever the stamps of the run: every later check gets
      the same answer, the wait included, and from then on failures find the same window. */
  lemma LockedAttemptsLeaveNoTrace(cfg: Config, h: seq<Event>, t: real, later: real)
    requires t >= 0.0 && CheckVerdict(cfg, TrackAfter(cfg, h), t).Locked?
    ensures CheckVerdict(cfg, TrackAfter(cfg, h + [Failure(t)]), later) == CheckVerdict(cfg, TrackAfter(cfg, h), later)
    ensures later >= t ==> AfterFailure(cfg, TrackAfter(cfg, h + [Failure(t)]).GetOr(FRESH), later)
                           == AfterFailure(cfg, TrackAfter(cfg, h).GetOr(FRESH), later)
  {
    hide TrackAfter, Prune;
    TrackStep(cfg, h, Failure(t));
    LockedStays(cfg, TrackAfter(cfg, h).value, t, later);
  }

  lemma LockedStays(cfg: Config, w: Track, t: real, later: real)
    requires t >= 0.0 && Pruned(cfg, w, t).lockedUntil > t
    ensures CheckVerdict(cfg, Some(Pruned(cfg, w, t)), later) == CheckVerdict(cfg, Some(w), later)
    ensures later >= t ==> Pruned(cfg, Pruned(cfg, w, t), later) == Pruned(cfg, w, later)
  {
    hide Prune, Wait;
    var c1, c2 := t - AtLeastOne(cfg.windowSeconds) as real, later - AtLeastOne(cfg.windowSeconds) as real;
    if c1 <= c2 {
      PruneTwice(w.failures, c1, c2);
    } else {
      PruneTwice(w.failures, c2, c1);
      LaterPruned(w.failures, c2, c1);
    }
  }

  /** Once pruned at a later cutoff, an earlier one finds nothing more to pop. */
  lemma LaterPruned(ts: seq<real>, c2: real, c1: real)
    requires c2 <= c1
    ensures Prune(Prune(ts, c1), c2) == Prune(ts, c1)
  {
    PruneIsTail(ts, c1);
  }

  lemma WaitBounds(until: real, now: real)
    requires now < until
    ensures now + Wait(until, now) as real - 1.0 <= until < now + Wait(until, now) as real
    ensures Wait(until, now) >= 1
  {
  }

  ghost function VerdictOf(cfg: Config, h: seq<Event>, e: Event): Verdict
    requires !e.Success?
  {
    if e.Check? then CheckVerdict(cfg, TrackAfter(cfg, h), e.at)
    else FailureVerdict(cfg, TrackAfter(cfg, h).GetOr(FRESH), e.at)
  }

  /** Main result: Retry-After is sound, whatever the stamps of the run. After a 429 at t that
      announces r seconds, a check at t + r or later passes and one before t + r - 1 is refused. */
  lemma RetryAfterEndsLock(cfg: Config, h: seq<Event>, e: Event, later: real)
    requires !e.Success? && later >= 0.0
    ensures var v := VerdictOf(cfg, h, e);
            v.Locked? ==>
              && v.retryAfter >= 1
              && (later >= e.at + v.retryAfter as real ==> CheckVerdict(cfg, TrackAfter(cfg, h + [e]), later).Pass?)
              && (later < e.at + v.retryAfter as real - 1.0 ==> CheckVerdict(cfg, TrackAfter(cfg, h + [e]), later).Locked?)
  {
    hide TrackAfter, Wait;
    TrackStep(cfg, h, e);
    var v := VerdictOf(cfg, h, e);
    if v.Locked? {
      var until := AnnouncedLock(cfg, h, e);
      LockedUntil(cfg, TrackAfter(cfg, h + [e]).value, later);
    }
  }

  lemma AnnouncedLock(cfg: Config, h: seq<Event>, e: Event) returns (until: real)
    requires !e.Success? && VerdictOf(cfg, h, e).Locked?
    ensures TrackAfter(cfg, h + [e]).Some? && until == TrackAfter(cfg, h + [e]).value.lockedUntil > e.at
    ensures var r := VerdictOf(cfg, h, e).retryAfter;
            r >= 1 && e.at + r as real - 1.0 <= until <= e.at + r as real
  {
    hide TrackAfter, Wait, Prune;
    TrackStep(cfg, h, e);
    until := TrackAfter(cfg, h + [e]).value.lockedUntil;
    WaitBounds(until, e.at);
  }

  /** Main result: the 429s announce the right wait. The failure that locks announces the whole
      lockout, after which the key is free; a 429 during a lock announces the time left, rounded up
      past it by at most a second. */
  lemma RetryAfterIsExact(cfg: Config, h: seq<Event>, e: Event) returns (until: real)
    requires !e.Success? && e.at >= 0.0 && VerdictOf(cfg, h, e).Locked?
    ensures forall later :: later >= 0.0 ==>
              (CheckVerdict(cfg, TrackAfter(cfg, h + [e]), later).Locked? <==> later < until)
    ensures var r := VerdictOf(cfg, h, e).retryAfter;
            if CheckVerdict(cfg, TrackAfter(cfg, h), e.at).Pass?
            then e.Failure? && r == AtLeastOne(cfg.lockoutSeconds) && until == e.at + r as real
            else e.at + r as real - 1.0 <= until < e.at + r as real
  {
    hide TrackAfter, Prune;
    TrackStep(cfg, h, e);
    until := AnnouncedLock(cfg, h, e);
    forall later | later >= 0.0
      ensures CheckVerdict(cfg, TrackAfter(cfg, h + [e]), later).Locked? <==> later < until
    {
      LockedUntil(cfg, TrackAfter(cfg, h + [e]).value, later);
    }
    if TrackAfter(cfg, h).Some? {
      LockedUntil(cfg, TrackAfter(cfg, h).value, e.at);
    }
    WaitBounds(until, e.at);
  }

  lemma LockedUntil(cfg: Config, w: Track, later: real)
    requires later >= 0.0
    ensures CheckVerdict(cfg, Some(w), later).Locked? <==> w.lockedUntil > later
  {
    hide Prune, Wait;
  }

  /** The announced wait is at most the lockout and a second, and what the clocks may be apart. */
  lemma RetryAfterIsBounded(cfg: Config, h: seq<Event>, e: Event, d: real)
    requires !e.Success? && e.at >= 0.0 && d >= 0.0 && Stale(Stamps(h + [e]), d)
    ensures VerdictOf(cfg, h, e).Locked? ==> VerdictOf(cfg, h, e).retryAfter as real <= AtLeastOne(cfg.lockoutSeconds) as real + d + 1.0
  {
    hide TrackAfter, Stale;
    if VerdictOf(cfg, h, e).Locked? {
      var until := AnnouncedLock(cfg, h, e);
      EarlierStamps(h, e, d);
      LockBound(cfg, h + [e], e.at + d);
    }
  }

  lemma EarlierStamps(h: seq<Event>, e: Event, d: real)
    requires d >= 0.0 && Stale(Stamps(h + [e]), d)
    ensures forall f :: f in h + [e] ==> f.at <= e.at + d
    ensures Stale(Stamps(h), d) && Stamps(h + [e]) == Stamps(h) + [e.at]
    ensures forall t :: t in Stamps(h) ==> t <= e.at + d
  {
    var all := Stamps(h + [e]);
    assert forall i :: 0 <= i < |h| ==> all[i] == h[i].at == Stamps(h)[i];
    assert all[|h|] == e.at;
  }

  lemma {:induction false} LockBound(cfg: Config, h: seq<Event>, top: real)
    requires forall f :: f in h ==> f.at <= top
    ensures var until := TrackAfter(cfg, h).GetOr(FRESH).lockedUntil;
            until <= 0.0 || until <= top + AtLeastOne(cfg.lockoutSeconds) as real
  {
    hide Prune;
    if h != [] {
      var n := |h| - 1;
      assert h == h[..n] + [h[n]];
      LockBound(cfg, h[..n], top);
    }
  }

  // ---------------------------------------------------------------- bound on guesses

  /** What n failures past the threshold cost in lockouts. */
  ghost function Cost(cfg: Config, n: int): real {
    (n - AtLeastOne(cfg.failures)) as real * AtLeastOne(cfg.lockoutSeconds) as real
  }

  lemma CostMonotone(cfg: Config, n: int, m: int)
    requires n <= m
    ensures Cost(cfg, n) <= Cost(cfg, m)
    ensures Cost(cfg, AtLeastOne(cfg.failures)) == 0.0
    ensures Cost(cfg, n + 1) == Cost(cfg, n) + AtLeastOne(cfg.lockoutSeconds) as real
  {
  }

  /** Every recorded failure that completes `max` within a window started a lock. */
  ghost predicate LocksFollow(cfg: Config, log: Log) {
    forall i :: 0 <= i < |log.recorded| && Completes(cfg, log.recorded, i) ==> log.recorded[i] in log.locks
  }

  ghost predicate Completes(cfg: Config, recorded: seq<real>, i: nat)
    requires i < |recorded|
  {
    Count(recorded[..i + 1], recorded[i] - AtLeastOne(cfg.windowSeconds) as real, recorded[i]) >= AtLeastOne(cfg.failures)
  }

  /** ... so the next failure is recorded only when that lock is over. */
  ghost predicate Gaps(cfg: Config, recorded: seq<real>) {
    forall i :: 0 <= i < |recorded| - 1 && Completes(cfg, recorded, i)
      ==> recorded[i + 1] >= recorded[i] + AtLeastOne(cfg.lockoutSeconds) as real
  }

  lemma {:induction false} LogHasGaps(cfg: Config, h: seq<Event>, now: real)
    requires OrderedUpTo(h, now)
    ensures var log := LogAfter(cfg, h);
            Sorted(log.recorded) && LocksFollow(cfg, log) && Gaps(cfg, log.recorded)
            && (forall i :: 0 <= i < |log.recorded| ==> log.recorded[i] <= now)
  {
    hide Count;
    if h != [] {
      var n := |h| - 1;
      var t := h[n].at;
      OrderedPrefix(h, now);
      LogHasGaps(cfg, h[..n], t);
      var log := LogAfter(cfg, h[..n]);
      if h[n].Failure? && !LockedAt(cfg, log, t) {
        RecordKeepsGaps(cfg, log, t);
      }
    }
  }

  lemma RecordKeepsGaps(cfg: Config, log: Log, t: real)
    requires Sorted(log.recorded) && LocksFollow(cfg, log) && Gaps(cfg, log.recorded)
    requires forall i :: 0 <= i < |log.recorded| ==> log.recorded[i] <= t
    requires !LockedAt(cfg, log, t)
    ensures var log' := Recorded(cfg, log, t);
            Sorted(log'.recorded) && LocksFollow(cfg, log') && Gaps(cfg, log'.recorded)
  {
    hide Count, LockedAt;
    var log' := Recorded(cfg, log, t);
    var n := |log.recorded|;
    WaitedOut(cfg, log, t);
    assert log'.recorded[..n + 1] == log'.recorded;
    forall i | 0 <= i < n
      ensures Completes(cfg, log'.recorded, i) <==> Completes(cfg, log.recorded, i)
    {
      assert log'.recorded[..i + 1] == log.recorded[..i + 1];
    }
  }

  lemma WaitedOut(cfg: Config, log: Log, t: real)
    requires LocksFollow(cfg, log) && !LockedAt(cfg, log, t)
    requires forall i :: 0 <= i < |log.recorded| ==> log.recorded[i] <= t
    ensures forall i :: 0 <= i < |log.recorded| && Completes(cfg, log.recorded, i)
              ==> t >= log.recorded[i] + AtLeastOne(cfg.lockoutSeconds) as real
  {
    hide Completes;
    forall i | 0 <= i < |log.recorded| && Completes(cfg, log.recorded, i)
      ensures t >= log.recorded[i] + AtLeastOne(cfg.lockoutSeconds) as real
    {
      var j :| 0 <= j < |log.locks| && log.locks[j] == log.recorded[i];
    }
  }

  /** In a stretch a..b of recorded failures shorter than a window, each one past the max-th
      waits out a lockout. */
  lemma {:induction false} Spread(cfg: Config, recorded: seq<real>, a: nat, b: nat)
    requires Sorted(recorded) && Gaps(cfg, recorded)
    requires a + AtLeastOne(cfg.failures) - 1 <= b < |recorded|
    requires recorded[b] - recorded[a] < AtLeastOne(cfg.windowSeconds) as real
    ensures recorded[b] - recorded[a] >= Cost(cfg, b - a + 1)
    decreases b
  {
    hide Cost, Completes;
    CostMonotone(cfg, b - a, b - a);
    if b > a + AtLeastOne(cfg.failures) - 1 {
      Spread(cfg, recorded, a, b - 1);
      CompletesInStretch(cfg, recorded, a, b - 1);
    }
  }

  lemma CompletesInStretch(cfg: Config, recorded: seq<real>, a: nat, i: nat)
    requires Sorted(recorded) && a + AtLeastOne(cfg.failures) - 1 <= i < |recorded|
    requires recorded[i] - recorded[a] < AtLeastOne(cfg.windowSeconds) as real
    ensures Completes(cfg, recorded, i)
  {
    hide Count;
    var upTo, lo := recorded[..i + 1], recorded[i] - AtLeastOne(cfg.windowSeconds) as real;
    assert upTo == upTo[..a] + upTo[a..];
    CountConcat(upTo[..a], upTo[a..], lo, recorded[i]);
    CountBounds(upTo[a..], lo, recorded[i]);
  }

  // ---------------------------------------------------------------- the size of the deque

  /** In the deque the failures from the max-th on are a lockout apart, it is d-stale, and it spans
      less than a window, d more with stale clocks. */
  ghost predicate Spaced(cfg: Config, w: Track, d: real) {
    && Apart(cfg, w.failures) && Stale(w.failures, d)
    && (|w.failures| >= AtLeastOne(cfg.failures) ==> w.lockedUntil >= Last(w.failures) + AtLeastOne(cfg.lockoutSeconds) as real)
    && (w.failures != [] ==> Last(w.failures) - w.failures[0] < AtLeastOne(cfg.windowSeconds) as real + d)
  }

  ghost predicate Apart(cfg: Config, ts: seq<real>) {
    forall k :: AtLeastOne(cfg.failures) - 1 <= k < |ts| - 1 ==> ts[k + 1] >= ts[k] + AtLeastOne(cfg.lockoutSeconds) as real
  }

  function Last(ts: seq<real>): real
    requires ts != []
  {
    ts[|ts| - 1]
  }

  lemma PrunedSpaced(cfg: Config, w: Track, d: real, now: real)
    requires Spaced(cfg, w, d) && forall t :: t in w.failures ==> t <= now + d
    ensures var p := Pruned(cfg, w, now);
            && Spaced(cfg, p, d) && (forall t :: t in p.failures ==> t in w.failures)
            && (p.failures != [] ==> p.failures[0] > now - AtLeastOne(cfg.windowSeconds) as real)
  {
    hide Prune, Apart, Stale;
    PruneIsTail(w.failures, now - AtLeastOne(cfg.windowSeconds) as real);
    var ts, live := w.failures, Pruned(cfg, w, now).failures;
    SuffixSpaced(cfg, ts, |ts| - |live|, d);
    assert live != [] ==> Last(live) == Last(ts) && Last(ts) in ts;
    assert |live| == |ts| ==> live == ts;
  }

  lemma SuffixSpaced(cfg: Config, ts: seq<real>, k: nat, d: real)
    requires k <= |ts| && Apart(cfg, ts) && Stale(ts, d)
    ensures Apart(cfg, ts[k..]) && Stale(ts[k..], d)
  {
    var live := ts[k..];
    forall i | AtLeastOne(cfg.failures) - 1 <= i < |live| - 1 ensures live[i + 1] >= live[i] + AtLeastOne(cfg.lockoutSeconds) as real {
      assert ts[i + k + 1] >= ts[i + k] + AtLeastOne(cfg.lockoutSeconds) as real;
    }
    assert forall i :: 0 <= i < |live| ==> live[i] == ts[i + k];
  }

  lemma FailureSpaced(cfg: Config, p: Track, d: real, now: real)
    requires d >= 0.0 && Spaced(cfg, p, d) && p.lockedUntil <= now && forall t :: t in p.failures ==> t <= now + d
    requires p.failures != [] ==> p.failures[0] > now - AtLeastOne(cfg.windowSeconds) as real
    ensures var failures := p.failures + [now];
            var until := if |failures| >= AtLeastOne(cfg.failures) then now + AtLeastOne(cfg.lockoutSeconds) as real else p.lockedUntil;
            Spaced(cfg, Track(failures, until), d)
  {
    hide Apart, Stale;
    var ts := p.failures;
    AppendApart(cfg, ts, now);
    AppendStale(ts, now, d);
    assert ts != [] ==> (ts + [now])[0] == ts[0];
  }

  lemma AppendApart(cfg: Config, ts: seq<real>, now: real)
    requires Apart(cfg, ts) && (|ts| >= AtLeastOne(cfg.failures) ==> now >= Last(ts) + AtLeastOne(cfg.lockoutSeconds) as real)
    ensures Apart(cfg, ts + [now])
  {
    var all := ts + [now];
    forall k | AtLeastOne(cfg.failures) - 1 <= k < |all| - 1 ensures all[k + 1] >= all[k] + AtLeastOne(cfg.lockoutSeconds) as real {
      if k + 1 < |ts| {
        assert ts[k + 1] >= ts[k] + AtLeastOne(cfg.lockoutSeconds) as real;
      }
    }
  }

  lemma AppendStale(ts: seq<real>, now: real, d: real)
    requires Stale(ts, d) && forall t :: t in ts ==> t <= now + d
    ensures Stale(ts + [now], d)
  {
    assert forall k :: 0 <= k < |ts| ==> (ts + [now])[k] == ts[k] && ts[k] in ts;
  }

  lemma {:induction false} RunIsSpaced(cfg: Config, h: seq<Event>, d: real)
    requires d >= 0.0 && Stale(Stamps(h), d)
    ensures Spaced(cfg, TrackAfter(cfg, h).GetOr(FRESH), d)
    ensures forall t :: t in TrackAfter(cfg, h).GetOr(FRESH).failures ==> t in Stamps(h)
  {
    hide Spaced, Stale, Pruned, Stamps, TrackAfter;
    if h == [] {
      FreshSpaced(cfg, d);
    } else {
      var n := |h| - 1;
      var past, e := h[..n], h[n];
      assert h == past + [e];
      EarlierStamps(past, e, d);
      RunIsSpaced(cfg, past, d);
      FreshSpaced(cfg, d);
      TrackStep(cfg, past, e);
      var w := TrackAfter(cfg, past).GetOr(FRESH);
      PrunedSpaced(cfg, w, d, e.at);
      if Pruned(cfg, w, e.at).lockedUntil <= e.at {
        FailureSpaced(cfg, Pruned(cfg, w, e.at), d, e.at);
      }
    }
  }

  lemma FreshSpaced(cfg: Config, d: real)
    ensures Spaced(cfg, FRESH, d) && TrackAfter(cfg, []).GetOr(FRESH) == FRESH
  {
  }

  lemma {:induction false} SpacedSum(cfg: Config, w: Track, d: real, k: nat)
    requires Spaced(cfg, w, d) && AtLeastOne(cfg.failures) <= k <= |w.failures|
    ensures w.failures[k - 1] >= w.failures[AtLeastOne(cfg.failures) - 1] + Cost(cfg, k)
  {
    hide Cost;
    CostMonotone(cfg, k - 1, k);
    if k > AtLeastOne(cfg.failures) {
      SpacedSum(cfg, w, d, k - 1);
    }
  }

  /** Main result: the deque never holds so many failures that those past the threshold, one
      lockout apart, would fill a window; with d-stale clocks, a window and 2d. */
  lemma DequeIsBounded(cfg: Config, h: seq<Event>, d: real)
    requires d >= 0.0 && Stale(Stamps(h), d) && TrackAfter(cfg, h).Some?
    ensures Cost(cfg, |TrackAfter(cfg, h).value.failures|) < AtLeastOne(cfg.windowSeconds) as real + 2.0 * d
  {
    hide TrackAfter, Cost, Stamps;
    var w := TrackAfter(cfg, h).value;
    RunIsSpaced(cfg, h, d);
    if |w.failures| >= AtLeastOne(cfg.failures) {
      SpacedSum(cfg, w, d, |w.failures|);
    } else {
      CostMonotone(cfg, |w.failures|, AtLeastOne(cfg.failures));
    }
  }

  // ---------------------------------------------------------------- guesses

  /** Every failure recorded in the whole run, successes notwithstanding. */
  ghost function AllRecorded(cfg: Config, h: seq<Event>): seq<real> {
    if h == [] then [] else
      var n := |h| - 1;
      AllRecorded(cfg, h[..n])
      + if h[n].Failure? && !LockedAt(cfg, LogAfter(cfg, h[..n]), h[n].at) then [h[n].at] else []
  }

  ghost predicate BeforeSuccess(h: seq<Event>, t: real) {
    exists j :: 0 <= j < |h| && h[j].Success? && t <= h[j].at
  }

  /** The log is the tail of all recorded failures; the rest precedes some success. */
  lemma {:induction false} LogIsTail(cfg: Config, h: seq<Event>, now: real)
    requires OrderedUpTo(h, now)
    ensures var all, recorded := AllRecorded(cfg, h), LogAfter(cfg, h).recorded;
            && |recorded| <= |all| && recorded == all[|all| - |recorded|..]
            && (forall i :: 0 <= i < |all| ==> all[i] <= now)
            && (forall i :: 0 <= i < |all| - |recorded| ==> BeforeSuccess(h, all[i]))
  {
    hide LockedAt, Count;
    if h != [] {
      var n := |h| - 1;
      OrderedPrefix(h, now);
      LogIsTail(cfg, h[..n], h[n].at);
      var all := AllRecorded(cfg, h);
      forall i | 0 <= i < |all| - |LogAfter(cfg, h).recorded|
        ensures BeforeSuccess(h, all[i])
      {
        if h[n].Success? {
          assert all[i] <= h[n].at;
        } else {
          assert all[i] == AllRecorded(cfg, h[..n])[i];
          assert BeforeSuccess(h[..n], all[i]);
          var j :| 0 <= j < n && h[..n][j].Success? && all[i] <= h[..n][j].at;
          assert h[j].Success?;
        }
      }
    }
  }

  /** Stamps of a sorted sequence counted in (lo, hi] lie between two of its positions. */
  lemma {:induction false} CountedStretch(ts: seq<real>, lo: real, hi: real) returns (a: nat, b: nat)
    requires Sorted(ts)
    ensures Count(ts, lo, hi) > 0 ==>
              a <= b < |ts| && lo < ts[a] && ts[b] <= hi && Count(ts, lo, hi) <= b - a + 1
  {
    a, b := 0, 0;
    if ts != [] {
      var n := |ts| - 1;
      a, b := CountedStretch(ts[..n], lo, hi);
      if lo < ts[n] <= hi {
        if Count(ts[..n], lo, hi) == 0 {
          a := n;
        }
        b := n;
      }
    }
  }

  lemma LogIsBounded(cfg: Config, h: seq<Event>, now: real, x: real)
    requires OrderedUpTo(h, now)
    ensures Cost(cfg, Count(LogAfter(cfg, h).recorded, x, x + AtLeastOne(cfg.windowSeconds) as real)) < AtLeastOne(cfg.windowSeconds) as real
  {
    hide Count, LogAfter, Gaps, LocksFollow, Cost;
    var recorded := LogAfter(cfg, h).recorded;
    LogHasGaps(cfg, h, now);
    var a, b := CountedStretch(recorded, x, x + AtLeastOne(cfg.windowSeconds) as real);
    var n := Count(recorded, x, x + AtLeastOne(cfg.windowSeconds) as real);
    if n >= AtLeastOne(cfg.failures) {
      Spread(cfg, recorded, a, b);
      CostMonotone(cfg, n, b - a + 1);
    } else {
      CostMonotone(cfg, n, AtLeastOne(cfg.failures));
    }
  }

  /** Main result: bound on guesses. In any interval (x, x + window] with no success in it, n
      recorded failures satisfy (n - max) * lockout < window. */
  lemma {:induction false} GuessesAreBounded(cfg: Config, h: seq<Event>, now: real, x: real)
    requires OrderedUpTo(h, now)
    requires forall j :: 0 <= j < |h| && h[j].Success? ==> !(x < h[j].at <= x + AtLeastOne(cfg.windowSeconds) as real)
    ensures Cost(cfg, Count(AllRecorded(cfg, h), x, x + AtLeastOne(cfg.windowSeconds) as real)) < AtLeastOne(cfg.windowSeconds) as real
  {
    hide Cost, LogAfter, AllRecorded, Count;
    if h == [] {
      LogIsBounded(cfg, h, now, x);
      EmptyRun(cfg);
    } else {
      var n := |h| - 1;
      var t := h[n].at;
      OrderedPrefix(h, now);
      GuessesAreBounded(cfg, h[..n], t, x);
      if x < t <= x + AtLeastOne(cfg.windowSeconds) as real {
        NothingEarlier(cfg, h, now, x);
        LogIsBounded(cfg, h, now, x);
      } else {
        LastOutside(cfg, h, x, x + AtLeastOne(cfg.windowSeconds) as real);
      }
    }
  }

  lemma EmptyRun(cfg: Config)
    ensures AllRecorded(cfg, []) == LogAfter(cfg, []).recorded == []
  {
  }

  lemma LastOutside(cfg: Config, h: seq<Event>, lo: real, hi: real)
    requires h != [] && !(lo < h[|h| - 1].at <= hi)
    ensures Count(AllRecorded(cfg, h), lo, hi) == Count(AllRecorded(cfg, h[..|h| - 1]), lo, hi)
  {
    hide LogAfter, LockedAt;
    var before, all := AllRecorded(cfg, h[..|h| - 1]), AllRecorded(cfg, h);
    assert all != before ==> all[..|all| - 1] == before;
  }

  lemma NothingEarlier(cfg: Config, h: seq<Event>, now: real, x: real)
    requires h != [] && OrderedUpTo(h, now)
    requires forall j :: 0 <= j < |h| && h[j].Success? ==> !(x < h[j].at <= x + AtLeastOne(cfg.windowSeconds) as real)
    requires x < h[|h| - 1].at <= x + AtLeastOne(cfg.windowSeconds) as real
    ensures Count(AllRecorded(cfg, h), x, x + AtLeastOne(cfg.windowSeconds) as real)
            == Count(LogAfter(cfg, h).recorded, x, x + AtLeastOne(cfg.windowSeconds) as real)
  {
    hide Count, LockedAt, LogAfter, AllRecorded;
    var all, recorded := AllRecorded(cfg, h), LogAfter(cfg, h).recorded;
    var hi := x + AtLeastOne(cfg.windowSeconds) as real;
    LogIsTail(cfg, h, now);
    var k := |all| - |recorded|;
    forall i | 0 <= i < k ensures all[i] <= x {
      assert BeforeSuccess(h, all[i]);
      var j :| 0 <= j < |h| && h[j].Success? && all[i] <= h[j].at;
      assert h[j].at <= h[|h| - 1].at;
    }
    assert all == all[..k] + recorded;
    CountConcat(all[..k], recorded, x, hi);
    CountBounds(all[..k], x, hi);
  }

  // ---------------------------------------------------------------- stale clocks

  /** The failures the code appends to the key's deque after event a, in lock order. */
  function RecordedSince(cfg: Config, h: seq<Event>, a: nat): seq<real>
    requires a <= |h|
  {
    if |h| == a then [] else
      var n := |h| - 1;
      RecordedSince(cfg, h[..n], a) + if Records(cfg, h) then [h[n].at] else []
  }

  /** The last event is a failure that met no lock. */
  predicate Records(cfg: Config, h: seq<Event>)
    requires h != []
  {
    var n := |h| - 1;
    h[n].Failure? && Pruned(cfg, TrackAfter(cfg, h[..n]).GetOr(FRESH), h[n].at).lockedUntil <= h[n].at
  }

  /** What c failures recorded in (x, hi] have left behind: they are in the deque, and from the
      max-th on each has started a lock that lasts a lockout more. */
  ghost predicate Remembered(cfg: Config, w: Track, c: nat, x: real, hi: real) {
    && c <= Count(w.failures, x, hi)
    && (c >= AtLeastOne(cfg.failures) ==> w.lockedUntil > x + Cost(cfg, c) + AtLeastOne(cfg.lockoutSeconds) as real)
  }

  lemma PrunedRemembers(cfg: Config, w: Track, c: nat, x: real, hi: real, now: real)
    requires Remembered(cfg, w, c, x, hi) && now <= x + AtLeastOne(cfg.windowSeconds) as real
    ensures Remembered(cfg, Pruned(cfg, w, now), c, x, hi)
  {
    hide Cost, Count, Prune;
    PruneKeepsCount(w.failures, now - AtLeastOne(cfg.windowSeconds) as real, x, hi);
    CountBounds(Prune(w.failures, now - AtLeastOne(cfg.windowSeconds) as real), x, hi);
  }

  lemma {:induction false} PruneKeepsCount(ts: seq<real>, cutoff: real, lo: real, hi: real)
    requires cutoff <= lo
    ensures Count(Prune(ts, cutoff), lo, hi) == Count(ts, lo, hi)
  {
    hide Count;
    PruneIsTail(ts, cutoff);
    var k := |ts| - |Prune(ts, cutoff)|;
    assert ts == ts[..k] + ts[k..];
    CountConcat(ts[..k], ts[k..], lo, hi);
    CountBounds(ts[..k], lo, hi);
  }

  lemma FailureRemembers(cfg: Config, p: Track, c: nat, x: real, hi: real, now: real)
    requires Remembered(cfg, p, c, x, hi) && p.lockedUntil <= now
    ensures var failures := p.failures + [now];
            var until := if |failures| >= AtLeastOne(cfg.failures) then now + AtLeastOne(cfg.lockoutSeconds) as real else p.lockedUntil;
            Remembered(cfg, Track(failures, until), if x < now <= hi then c + 1 else c, x, hi)
  {
    hide Cost, Count;
    var failures := p.failures + [now];
    CountConcat(p.failures, [now], x, hi);
    CountOne(now, x, hi);
    CountBounds(failures, x, hi);
    CostMonotone(cfg, c, c);
    CostMonotone(cfg, AtLeastOne(cfg.failures), AtLeastOne(cfg.failures));
  }

  lemma CountOne(t: real, lo: real, hi: real)
    ensures Count([t], lo, hi) == if lo < t <= hi then 1 else 0
  {
    assert [t][..0] == [];
  }

  /** While no stamp is a window past x, nothing recorded after x is popped and no lock is reset. */
  lemma {:induction false} RunRemembers(cfg: Config, h: seq<Event>, a: nat, x: real, hi: real)
    requires a <= |h| && forall i :: a <= i < |h| ==> !h[i].Success? && h[i].at <= x + AtLeastOne(cfg.windowSeconds) as real
    ensures Remembered(cfg, TrackAfter(cfg, h).GetOr(FRESH), Count(RecordedSince(cfg, h, a), x, hi), x, hi)
  {
    hide Cost, Count, Prune, Pruned, Remembered;
    if |h| == a {
      NothingToRemember(cfg, TrackAfter(cfg, h).GetOr(FRESH), x, hi);
    } else {
      var n := |h| - 1;
      var w, now := TrackAfter(cfg, h[..n]).GetOr(FRESH), h[n].at;
      var before := RecordedSince(cfg, h[..n], a);
      var c := Count(before, x, hi);
      RunRemembers(cfg, h[..n], a, x, hi);
      PrunedRemembers(cfg, w, c, x, hi, now);
      assert before + [] == before;
      if Records(cfg, h) {
        FailureRemembers(cfg, Pruned(cfg, w, now), c, x, hi, now);
        CountConcat(before, [now], x, hi);
        CountOne(now, x, hi);
      }
    }
  }

  lemma NothingToRemember(cfg: Config, w: Track, x: real, hi: real)
    ensures Remembered(cfg, w, Count([], x, hi), x, hi)
  {
  }

  /** Main result: the bound on guesses holds for stale clocks. With stamps at most d stale, in any
      stretch of a run without a success, n > max failures recorded in an interval
      (x, x + window - d] satisfy (n - max) * lockout < window - d. */
  lemma {:induction false} StaleGuessesAreBounded(cfg: Config, h: seq<Event>, a: nat, d: real, x: real)
    requires a <= |h| && (forall i :: a <= i < |h| ==> !h[i].Success?)
    requires d >= 0.0 && Stale(Stamps(h[a..]), d)
    ensures var n := Count(RecordedSince(cfg, h, a), x, x + AtLeastOne(cfg.windowSeconds) as real - d);
            n > AtLeastOne(cfg.failures) ==> Cost(cfg, n) < AtLeastOne(cfg.windowSeconds) as real - d
  {
    hide Cost, Count, Remembered, Pruned, TrackAfter;
    var hi := x + AtLeastOne(cfg.windowSeconds) as real - d;
    if |h| == a {
      NothingToRemember(cfg, FRESH, x, hi);
      CountBounds([], x, hi);
    } else {
      var n := |h| - 1;
      var now := h[n].at;
      var before := RecordedSince(cfg, h[..n], a);
      StalePrefix(h, a, d);
      StaleGuessesAreBounded(cfg, h[..n], a, d, x);
      CountConcat(before, [now], x, hi);
      CountOne(now, x, hi);
      assert before + [] == before;
      if Records(cfg, h) && x < now <= hi {
        RunRemembers(cfg, h[..n], a, x, hi);
        PrunedRemembers(cfg, TrackAfter(cfg, h[..n]).GetOr(FRESH), Count(before, x, hi), x, hi, now);
        LastGuess(cfg, Pruned(cfg, TrackAfter(cfg, h[..n]).GetOr(FRESH), now), Count(before, x, hi), x, hi, now);
      }
    }
  }

  lemma StalePrefix(h: seq<Event>, a: nat, d: real)
    requires a < |h| && Stale(Stamps(h[a..]), d)
    ensures Stale(Stamps(h[..|h| - 1][a..]), d)
    ensures forall i :: a <= i < |h| - 1 ==> h[i].at <= h[|h| - 1].at + d
  {
    var n := |h| - 1;
    var all, part := Stamps(h[a..]), Stamps(h[..n][a..]);
    assert forall i :: 0 <= i < |part| ==> part[i] == all[i];
    forall i | a <= i < n ensures h[i].at <= h[n].at + d {
      assert all[i - a] == h[i].at && all[n - a] == h[n].at;
    }
  }

  /** A failure after c remembered ones has waited out all their locks. */
  lemma LastGuess(cfg: Config, p: Track, c: nat, x: real, hi: real, now: real)
    requires Remembered(cfg, p, c, x, hi) && p.lockedUntil <= now <= hi
    ensures c >= AtLeastOne(cfg.failures) ==> Cost(cfg, c + 1) < hi - x
  {
    hide Cost, Count;
    CostMonotone(cfg, c, c);
  }

  // ---------------------------------------------------------------- many keys

  datatype Call = Call(key: string, event: Event)

  /** One call on the dictionary of windows. */
  function Step(cfg: Config, m: map<string, Track>, c: Call): map<string, Track> {
    if !cfg.enabled then m else
      match c.event
      case Check(t) => Put(m, c.key, AfterCheck(cfg, At(m, c.key), t))
      case Failure(t) => m[c.key := AfterFailure(cfg, At(m, c.key).GetOr(FRESH), t)]
      case Success(_) => m - {c.key}
  }

  function RunState(cfg: Config, calls: seq<Call>): map<string, Track> {
    if calls == [] then map[] else
      Step(cfg, RunState(cfg, calls[..|calls| - 1]), calls[|calls| - 1])
  }

  function EventsOf(calls: seq<Call>, key: string): seq<Event> {
    if calls == [] then [] else
      var n := |calls| - 1;
      EventsOf(calls[..n], key) + if calls[n].key == key then [calls[n].event] else []
  }

  /** Main result: keys are independent. After any interleaving, a key's window is the one its
      own events alone produce, so every result above holds for each key of the limiter. */
  lemma {:induction false} KeysAreIndependent(cfg: Config, calls: seq<Call>, key: string)
    ensures At(RunState(cfg, calls), key) == if cfg.enabled then TrackAfter(cfg, EventsOf(calls, key)) else None
  {
    hide AfterCheck, AfterFailure;
    if calls != [] {
      var n := |calls| - 1;
      KeysAreIndependent(cfg, calls[..n], key);
      var before := EventsOf(calls[..n], key);
      if calls[n].key == key {
        assert EventsOf(calls, key)[..|before|] == before;
      } else {
        assert EventsOf(calls, key) == before;
      }
    }
  }

  /** The default of `locked_until` is time 0, so the non-negative clock is needed: before time 0
      a key that never failed is refused and its failure goes unrecorded. */
  lemma NegativeClockLocksFreshKey(cfg: Config, now: real)
    ensures FailureVerdict(cfg, FRESH, now).Locked? && AfterFailure(cfg, FRESH, now).failures == [] <==> now < 0.0
  {
  }
}
