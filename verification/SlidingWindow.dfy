/** The one-minute sliding-window counter of `ratelimit.py`, one deque of admission stamps.

    A request reads the clock first and takes the lock afterwards, so the stamps reach the
    window in lock order, which need not be clock order. A run is therefore any sequence of
    stamps; `Stale(stamps, d)` bounds how far a stamp may lie below an earlier one. */
module SlidingWindow {

  const WINDOW: real := 60.0

  datatype Decision = Allowed | Refused(retryAfter: int)

  /** Python's `int()` on a float: truncation toward zero. */
  function Trunc(x: real): int {
    if x >= 0.0 then x.Floor else -((-x).Floor)
  }

  function Limit(rpm: int, burst: real): (n: nat)
    ensures n >= 1
  {
    var n := Trunc(rpm as real * burst);
    if n < 1 then 1 else n
  }

  /** The limit is the whole part of rate times burst factor, but at least 1. */
  lemma LimitIsWholePart(rpm: int, burst: real)
    ensures var n, product := Limit(rpm, burst), rpm as real * burst;
            if product >= 1.0 then n as real <= product < n as real + 1.0 else n == 1
  {
    WholePart(rpm as real * burst);
  }

  lemma WholePart(x: real)
    ensures x >= 0.0 ==> 0.0 <= Trunc(x) as real <= x < Trunc(x) as real + 1.0
    ensures x < 1.0 ==> Trunc(x) < 1
  {
  }

  /** What is left of a deque once every leading stamp at or below the cutoff is popped. */
  function Prune(ts: seq<real>, cutoff: real): seq<real> {
    if ts != [] && ts[0] <= cutoff then Prune(ts[1..], cutoff) else ts
  }

  function RetryAfter(oldest: real, now: real): int {
    var wait := Trunc(oldest + WINDOW - now) + 1;
    if wait < 1 then 1 else wait
  }

  function Decide(limit: nat, ts: seq<real>, now: real): Decision
    requires limit >= 1
  {
    var live := Prune(ts, now - WINDOW);
    if |live| >= limit then Refused(RetryAfter(live[0], now)) else Allowed
  }

  function Next(limit: nat, ts: seq<real>, now: real): seq<real>
    requires limit >= 1
  {
    var live := Prune(ts, now - WINDOW);
    if |live| >= limit then live else live + [now]
  }

  class Window {
    const limit: nat
    var timestamps: seq<real>

    constructor (rpm: int, burst: real)
      ensures limit == Limit(rpm, burst) && timestamps == []
    {
      limit := Limit(rpm, burst);
      timestamps := [];
    }

    /** `now` is the clock reading taken before the lock. */
    method Allow(now: real) returns (decision: Decision)
      requires limit >= 1
      modifies this
      ensures timestamps == Next(limit, old(timestamps), now)
      ensures decision == Decide(limit, old(timestamps), now)
    {
      var cutoff := now - WINDOW;
      while timestamps != [] && timestamps[0] <= cutoff
        invariant Prune(timestamps, cutoff) == Prune(old(timestamps), cutoff)
        decreases |timestamps|
      {
        timestamps := timestamps[1..];
      }
      if |timestamps| >= limit {
        var oldest := timestamps[0];
        return Refused(RetryAfter(oldest, now));
      }
      timestamps := timestamps + [now];
      return Allowed;
    }
  }

  /** Pruning drops exactly the longest prefix of stamps at or below the cutoff. */
  lemma {:induction false} PruneIsTail(ts: seq<real>, cutoff: real)
    ensures var r := Prune(ts, cutoff);
            && |r| <= |ts| && r == ts[|ts| - |r|..]
            && (forall i :: 0 <= i < |ts| - |r| ==> ts[i] <= cutoff)
            && (r != [] ==> r[0] > cutoff)
  {
    if ts != [] && ts[0] <= cutoff {
      PruneIsTail(ts[1..], cutoff);
      forall i | 0 <= i < |ts| - |Prune(ts, cutoff)| ensures ts[i] <= cutoff {
        assert i > 0 ==> ts[i] == ts[1..][i - 1];
      }
    }
  }

  // ---------------------------------------------------------------- runs

  /** The deque after a run of calls with these stamps, in lock order. */
  function Deque(limit: nat, stamps: seq<real>): seq<real>
    requires limit >= 1
  {
    if stamps == [] then [] else
      var n := |stamps| - 1;
      Next(limit, Deque(limit, stamps[..n]), stamps[n])
  }

  /** What a call stamped `now` is told after the run. */
  function Outcome(limit: nat, stamps: seq<real>, now: real): Decision
    requires limit >= 1
  {
    Decide(limit, Deque(limit, stamps), now)
  }

  /** The full history: the stamp of every admitted call, never pruned. */
  function Admitted(limit: nat, stamps: seq<real>): seq<real>
    requires limit >= 1
  {
    if stamps == [] then [] else
      var n := |stamps| - 1;
      var before := Admitted(limit, stamps[..n]);
      if Outcome(limit, stamps[..n], stamps[n]).Allowed? then before + [stamps[n]] else before
  }

  /** How many stamps lie in the interval (lo, hi]. */
  function Count(ts: seq<real>, lo: real, hi: real): nat {
    if ts == [] then 0 else
      Count(ts[..|ts| - 1], lo, hi) + (if lo < ts[|ts| - 1] <= hi then 1 else 0)
  }

  /** No stamp is more than d below an earlier one. */
  ghost predicate Stale(stamps: seq<real>, d: real) {
    forall i, j :: 0 <= i < j < |stamps| ==> stamps[j] >= stamps[i] - d
  }

  ghost predicate Sorted(ts: seq<real>) {
    forall i, j :: 0 <= i < j < |ts| ==> ts[i] <= ts[j]
  }

  lemma {:induction false} CountConcat(a: seq<real>, b: seq<real>, lo: real, hi: real)
    ensures Count(a + b, lo, hi) == Count(a, lo, hi) + Count(b, lo, hi)
  {
    if b == [] {
      assert a + b == a;
    } else {
      var n := |b| - 1;
      assert (a + b)[..|a + b| - 1] == a + b[..n];
      CountConcat(a, b[..n], lo, hi);
    }
  }

  lemma {:induction false} CountBounds(ts: seq<real>, lo: real, hi: real)
    ensures Count(ts, lo, hi) <= |ts|
    ensures (forall i :: 0 <= i < |ts| ==> ts[i] <= lo) ==> Count(ts, lo, hi) == 0
    ensures (forall i :: 0 <= i < |ts| ==> lo < ts[i] <= hi) ==> Count(ts, lo, hi) == |ts|
  {
    if ts != [] {
      CountBounds(ts[..|ts| - 1], lo, hi);
    }
  }

  /** Stamps before position k lie at or below the interval: only the rest can count. */
  lemma CountTail(log: seq<real>, k: nat, lo: real, hi: real)
    requires k <= |log|
    requires forall i :: 0 <= i < k ==> log[i] <= lo
    ensures Count(log, lo, hi) <= |log| - k
    ensures (forall i :: k <= i < |log| ==> lo < log[i] <= hi) ==> Count(log, lo, hi) == |log| - k
  {
    hide Count;
    var early, recent := log[..k], log[k..];
    assert log == early + recent;
    CountConcat(early, recent, lo, hi);
    CountBounds(early, lo, hi);
    CountBounds(recent, lo, hi);
  }

  lemma SortedParts(a: seq<real>, now: real)
    requires Sorted(a + [now])
    ensures Sorted(a) && Stale(a, 0.0)
    ensures forall i :: 0 <= i < |a| ==> a[i] <= now
  {
    var all := a + [now];
    forall i, j | 0 <= i < j < |a| ensures a[i] <= a[j] {
      assert all[i] == a[i] && all[j] == a[j];
    }
    forall i | 0 <= i < |a| ensures a[i] <= now {
      assert all[i] == a[i] && all[|a|] == now;
    }
  }

  /** The deque is the tail of the history, and what was popped is a full window below the
      largest stamp seen. */
  lemma {:induction false} DequeIsTail(limit: nat, stamps: seq<real>, top: real)
    requires limit >= 1
    requires forall i :: 0 <= i < |stamps| ==> stamps[i] <= top
    ensures var log, ts := Admitted(limit, stamps), Deque(limit, stamps);
            && |ts| <= |log| && ts == log[|log| - |ts|..]
            && (forall i :: 0 <= i < |log| - |ts| ==> log[i] <= top - WINDOW)
  {
    hide Deque, Admitted, Prune;
    RunStep(limit, stamps);
    if stamps != [] {
      var n := |stamps| - 1;
      var log, ts := Admitted(limit, stamps[..n]), Deque(limit, stamps[..n]);
      DequeIsTail(limit, stamps[..n], top);
      PrunedTail(log, ts, stamps[n] - WINDOW, top - WINDOW);
      TailGrows(log, Prune(ts, stamps[n] - WINDOW), stamps[n]);
    }
  }

  /** One more call of a run. */
  lemma RunStep(limit: nat, stamps: seq<real>)
    requires limit >= 1
    ensures stamps == [] ==> Deque(limit, stamps) == [] && Admitted(limit, stamps) == []
    ensures stamps != [] ==>
              var before, s := stamps[..|stamps| - 1], stamps[|stamps| - 1];
              var log, live := Admitted(limit, before), Prune(Deque(limit, before), s - WINDOW);
              if |live| >= limit then Deque(limit, stamps) == live && Admitted(limit, stamps) == log
              else Deque(limit, stamps) == live + [s] && Admitted(limit, stamps) == log + [s]
  {
    hide Prune;
  }

  lemma TailGrows(log: seq<real>, live: seq<real>, s: real)
    requires |live| <= |log| && live == log[|log| - |live|..]
    ensures live + [s] == (log + [s])[|log| - |live|..]
    ensures forall i :: 0 <= i < |log| - |live| ==> (log + [s])[i] == log[i]
  {
  }

  lemma PrunedTail(log: seq<real>, ts: seq<real>, cutoff: real, bound: real)
    requires |ts| <= |log| && ts == log[|log| - |ts|..] && cutoff <= bound
    requires forall i :: 0 <= i < |log| - |ts| ==> log[i] <= bound
    ensures var live := Prune(ts, cutoff);
            && |live| <= |log| && live == log[|log| - |live|..]
            && (forall i :: 0 <= i < |log| - |live| ==> log[i] <= bound)
  {
    PruneIsTail(ts, cutoff);
    var live := Prune(ts, cutoff);
    forall i | 0 <= i < |log| - |live| ensures log[i] <= bound {
      if i >= |log| - |ts| {
        assert log[i] == ts[i - (|log| - |ts|)];
      }
    }
  }

  /** When a call is admitted and every stamp so far is at most x + 60, fewer than `limit`
      admissions lie above x. */
  lemma RoomBeforeAdmission(limit: nat, stamps: seq<real>, s: real, x: real, hi: real)
    requires limit >= 1 && s <= x + WINDOW
    requires forall i :: 0 <= i < |stamps| ==> stamps[i] <= x + WINDOW
    requires Outcome(limit, stamps, s).Allowed?
    ensures Count(Admitted(limit, stamps), x, hi) < limit
  {
    hide Admitted, Deque, Count, Prune;
    var log, ts := Admitted(limit, stamps), Deque(limit, stamps);
    DequeIsTail(limit, stamps, x + WINDOW);
    PrunedTail(log, ts, s - WINDOW, x);
    CountTail(log, |log| - |Prune(ts, s - WINDOW)|, x, hi);
  }

  /** Main result: with stamps at most d stale, no interval (x, x + 60 - d] ever holds more
      than `limit` admitted stamps. With d = 0 this is the sliding-window guarantee. */
  lemma {:induction false} WindowSafety(limit: nat, stamps: seq<real>, d: real, x: real)
    requires limit >= 1 && d >= 0.0 && Stale(stamps, d)
    ensures Count(Admitted(limit, stamps), x, x + WINDOW - d) <= limit
  {
    if stamps != [] {
      var n := |stamps| - 1;
      var h, s := stamps[..n], stamps[n];
      WindowSafety(limit, h, d, x);
      if s <= x + WINDOW - d && Outcome(limit, h, s).Allowed? {
        forall i | 0 <= i < n ensures h[i] <= x + WINDOW {
          assert stamps[n] >= stamps[i] - d;
        }
        RoomBeforeAdmission(limit, h, s, x, x + WINDOW - d);
      }
    }
  }

  // ---------------------------------------------------------------- the bound is tight

  lemma {:induction false} Burst(limit: nat, k: nat)
    requires 1 <= limit && k <= limit
    ensures Admitted(limit, seq(k, _ => 0.0)) == Deque(limit, seq(k, _ => 0.0)) == seq(k, _ => 0.0)
  {
    if k > 0 {
      Burst(limit, k - 1);
      assert seq(k, _ => 0.0)[..k - 1] == seq(k - 1, _ => 0.0);
      assert seq(k, _ => 0.0) == seq(k - 1, _ => 0.0) + [0.0];
    }
  }

  /** The staleness term cannot be dropped: for every limit above 1 and every staleness d up to
      a minute, each wider interval is overfilled by some d-stale run. */
  lemma StaleBoundIsTight(limit: nat, d: real, width: real) returns (stamps: seq<real>, x: real)
    requires limit >= 2 && 0.0 < d <= WINDOW && width > WINDOW - d
    ensures Stale(stamps, d)
    ensures Count(Admitted(limit, stamps), x, x + width) > limit
  {
    hide Admitted, Deque, Prune, Count;
    var zeros := seq(limit, _ => 0.0);
    stamps := BurstThenStale(limit, d);
    x := WINDOW - d - width;
    assert stamps == zeros + [WINDOW] + [WINDOW - d];
    CountConcat(zeros + [WINDOW], [WINDOW - d], x, x + width);
    CountConcat(zeros, [WINDOW], x, x + width);
    CountBounds(zeros, x, x + width);
    CountBounds([WINDOW - d], x, x + width);
  }

  lemma BurstThenStale(limit: nat, d: real) returns (stamps: seq<real>)
    requires limit >= 2 && 0.0 < d <= WINDOW
    ensures stamps == seq(limit, _ => 0.0) + [WINDOW, WINDOW - d]
    ensures Admitted(limit, stamps) == stamps
  {
    var zeros := seq(limit, _ => 0.0);
    var all := zeros + [WINDOW];
    stamps := zeros + [WINDOW, WINDOW - d];
    Burst(limit, limit);
    PruneAll(zeros, 0.0);
    assert all[..limit] == zeros && stamps[..limit + 1] == all;
    assert Deque(limit, all) == [WINDOW];
    assert Outcome(limit, all, WINDOW - d).Allowed?;
  }

  lemma {:induction false} PruneAll(ts: seq<real>, cutoff: real)
    requires forall i :: 0 <= i < |ts| ==> ts[i] <= cutoff
    ensures Prune(ts, cutoff) == []
  {
    if ts != [] {
      PruneAll(ts[1..], cutoff);
    }
  }

  // ---------------------------------------------------------------- non-decreasing stamps

  lemma {:induction false} AdmittedSorted(limit: nat, stamps: seq<real>, top: real)
    requires limit >= 1 && Sorted(stamps)
    requires forall i :: 0 <= i < |stamps| ==> stamps[i] <= top
    ensures Sorted(Admitted(limit, stamps))
    ensures forall i :: 0 <= i < |Admitted(limit, stamps)| ==> Admitted(limit, stamps)[i] <= top
  {
    if stamps != [] {
      var n := |stamps| - 1;
      AdmittedSorted(limit, stamps[..n], stamps[n]);
    }
  }

  /** With non-decreasing stamps the pruned deque is exactly the history of the last minute. */
  lemma LiveIsRecent(limit: nat, stamps: seq<real>, now: real)
    requires limit >= 1 && Sorted(stamps + [now])
    ensures |Prune(Deque(limit, stamps), now - WINDOW)| == Count(Admitted(limit, stamps), now - WINDOW, now)
  {
    hide Admitted, Deque, Count, Prune;
    SortedParts(stamps, now);
    var log, ts := Admitted(limit, stamps), Deque(limit, stamps);
    AdmittedSorted(limit, stamps, now);
    DequeIsTail(limit, stamps, now);
    PrunedTail(log, ts, now - WINDOW, now - WINDOW);
    PruneIsTail(ts, now - WINDOW);
    var k := |log| - |Prune(ts, now - WINDOW)|;
    forall i | k <= i < |log| ensures now - WINDOW < log[i] <= now {
      assert log[k] == Prune(ts, now - WINDOW)[0];
    }
    CountTail(log, k, now - WINDOW, now);
  }

  /** Main result: the deque refines the history. A call is refused exactly when `limit` calls
      were admitted in the minute ending at its stamp. */
  lemma RefusedIffFull(limit: nat, stamps: seq<real>, now: real)
    requires limit >= 1 && Sorted(stamps + [now])
    ensures Outcome(limit, stamps, now).Refused?
            <==> Count(Admitted(limit, stamps), now - WINDOW, now) == limit
  {
    hide Admitted, Deque, Count, Prune;
    LiveIsRecent(limit, stamps, now);
    SortedParts(stamps, now);
    WindowSafety(limit, stamps, 0.0, now - WINDOW);
  }

  lemma RetryAfterBounds(oldest: real, now: real)
    requires now - WINDOW < oldest <= now
    ensures var r := RetryAfter(oldest, now);
            1 <= r <= 61 && now + r as real - 1.0 <= oldest + WINDOW < now + r as real
  {
  }

  /** A refused call sees exactly the last `limit` admissions, the oldest of them live. */
  lemma RefusedView(limit: nat, stamps: seq<real>, now: real)
    requires limit >= 1 && Sorted(stamps + [now])
    requires Outcome(limit, stamps, now).Refused?
    ensures var log, live := Admitted(limit, stamps), Prune(Deque(limit, stamps), now - WINDOW);
            && |live| == limit <= |log| && live[0] == log[|log| - limit]
            && now - WINDOW < live[0] <= now
            && Sorted(log)
  {
    hide Admitted, Deque, Count, Prune;
    var log, ts := Admitted(limit, stamps), Deque(limit, stamps);
    SortedParts(stamps, now);
    DequeIsTail(limit, stamps, now);
    PrunedTail(log, ts, now - WINDOW, now - WINDOW);
    PruneIsTail(ts, now - WINDOW);
    AdmittedSorted(limit, stamps, now);
    LiveIsRecent(limit, stamps, now);
    RefusedIffFull(limit, stamps, now);
  }

  /** Counting back from t: the interval is full exactly while the oldest of the last `limit`
      admissions is inside it. */
  lemma FullWhileOldestLive(log: seq<real>, limit: nat, t: real)
    requires Sorted(log) && 1 <= limit <= |log|
    requires forall i :: 0 <= i < |log| ==> log[i] <= t
    ensures Count(log, t - WINDOW, t) >= limit <==> t < log[|log| - limit] + WINDOW
  {
    hide Count;
    var k := |log| - limit;
    if t >= log[k] + WINDOW {
      CountTail(log, k + 1, t - WINDOW, t);
    } else {
      assert log == log[..k] + log[k..];
      CountConcat(log[..k], log[k..], t - WINDOW, t);
      CountBounds(log[k..], t - WINDOW, t);
    }
  }

  /** After a refusal at `now`, and as long as nothing more is admitted, a call at t is refused
      exactly until the oldest live stamp is a full window old. */
  lemma FreeAgain(limit: nat, stamps: seq<real>, now: real, later: seq<real>, t: real)
    requires limit >= 1 && Sorted(stamps + [now]) && Sorted(later + [t])
    requires Outcome(limit, stamps, now).Refused?
    requires Admitted(limit, later) == Admitted(limit, stamps)
    ensures |Prune(Deque(limit, stamps), now - WINDOW)| > 0
    ensures Outcome(limit, later, t).Refused?
            <==> t < Prune(Deque(limit, stamps), now - WINDOW)[0] + WINDOW
  {
    hide Admitted, Deque, Count, Prune;
    var log := Admitted(limit, later);
    RefusedView(limit, stamps, now);
    assert Outcome(limit, later, t).Refused? <==> Count(log, t - WINDOW, t) >= limit by {
      LiveIsRecent(limit, later, t);
    }
    assert forall i :: 0 <= i < |log| ==> log[i] <= t by {
      SortedParts(later, t);
      AdmittedSorted(limit, later, t);
    }
    FullWhileOldestLive(log, limit, t);
  }

  /** Main result: Retry-After is sound and nearly exact. After a refusal at `now` announcing a
      wait of r seconds, and further calls of which none is admitted, a call at t is admitted
      if t >= now + r and refused if t < now + r - 1. */
  lemma RetryAfterSound(limit: nat, stamps: seq<real>, now: real, others: seq<real>, t: real)
    requires limit >= 1 && Sorted(stamps + [now] + others + [t])
    requires Outcome(limit, stamps, now).Refused?
    requires Admitted(limit, stamps + [now] + others) == Admitted(limit, stamps)
    ensures var r := Outcome(limit, stamps, now).retryAfter;
            && 1 <= r <= 61
            && (t >= now + r as real ==> Outcome(limit, stamps + [now] + others, t).Allowed?)
            && (t < now + r as real - 1.0 ==> Outcome(limit, stamps + [now] + others, t).Refused?)
  {
    hide Admitted, Deque, Count, Prune;
    var later := stamps + [now] + others;
    var all := later + [t];
    forall i, j | 0 <= i < j < |stamps + [now]| ensures (stamps + [now])[i] <= (stamps + [now])[j] {
      assert all[i] == (stamps + [now])[i] && all[j] == (stamps + [now])[j];
    }
    assert all[|stamps|] == now && all[|later|] == t;
    FreeAgain(limit, stamps, now, later, t);
    RefusedView(limit, stamps, now);
    RetryAfterBounds(Prune(Deque(limit, stamps), now - WINDOW)[0], now);
  }
}
