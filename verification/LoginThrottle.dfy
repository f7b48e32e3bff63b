/** The login throttle of `auth_throttle.py`: per key, a deque of recent failures that is pruned
    lazily, and the time until which the key is locked. */
module LoginThrottle {
  import opened SlidingWindow
  import opened Wrappers

  /** The raw settings; the limiter clamps each number to at least 1. */
  datatype Config = Config(enabled: bool, failures: int, windowSeconds: int, lockoutSeconds: int) {
    function MaxFailures(): (n: nat) ensures n >= 1 { if failures < 1 then 1 else failures }
    function Span(): (n: nat) ensures n >= 1 { if windowSeconds < 1 then 1 else windowSeconds }
    function Lockout(): (n: nat) ensures n >= 1 { if lockoutSeconds < 1 then 1 else lockoutSeconds }
  }

  /** `Locked` stands for the HTTP 429 the source raises. */
  datatype Verdict = Pass | Locked(retryAfter: int)

  /** The value of one key's attempt window. */
  datatype Track = Track(failures: seq<real>, lockedUntil: real)

  const FRESH := Track([], 0.0)

  function Wait(until: real, now: real): int {
    var wait := Trunc(until - now) + 1;
    if wait < 1 then 1 else wait
  }

  function Pruned(cfg: Config, w: Track, now: real): Track {
    var failures := Prune(w.failures, now - cfg.Span() as real);
    Track(failures, if w.lockedUntil <= now && failures == [] then 0.0 else w.lockedUntil)
  }

  function AfterCheck(cfg: Config, w: Option<Track>, now: real): Option<Track> {
    if w.None? then None else Some(Pruned(cfg, w.value, now))
  }

  function CheckVerdict(cfg: Config, w: Option<Track>, now: real): Verdict {
    if w.None? then Pass else
      var p := Pruned(cfg, w.value, now);
      if p.lockedUntil > now then Locked(Wait(p.lockedUntil, now)) else Pass
  }

  function AfterFailure(cfg: Config, w: Track, now: real): Track {
    var p := Pruned(cfg, w, now);
    if p.lockedUntil > now then p else
      var failures := p.failures + [now];
      Track(failures, if |failures| >= cfg.MaxFailures() then now + cfg.Lockout() as real else p.lockedUntil)
  }

  function FailureVerdict(cfg: Config, w: Track, now: real): Verdict {
    var p := Pruned(cfg, w, now);
    if p.lockedUntil > now then Locked(Wait(p.lockedUntil, now))
    else if |p.failures| + 1 >= cfg.MaxFailures() then Locked(cfg.Lockout())
    else Pass
  }

  class AttemptWindow {
    var failures: seq<real>
    var lockedUntil: real

    constructor ()
      ensures Value() == FRESH
    {
      failures, lockedUntil := [], 0.0;
    }

    ghost function Value(): Track
      reads this
    {
      Track(failures, lockedUntil)
    }

    method PruneAt(cfg: Config, now: real)
      modifies this
      ensures Value() == Pruned(cfg, old(Value()), now)
    {
      var cutoff := now - cfg.Span() as real;
      while failures != [] && failures[0] <= cutoff
        invariant Prune(failures, cutoff) == Prune(old(failures), cutoff)
        invariant lockedUntil == old(lockedUntil)
        decreases |failures|
      {
        failures := failures[1..];
      }
      if lockedUntil <= now && failures == [] {
        lockedUntil := 0.0;
      }
    }

    /** The locked section of `record_failure`, on the window of its key. */
    method Fail(cfg: Config, now: real) returns (v: Verdict)
      modifies this
      ensures v == FailureVerdict(cfg, old(Value()), now)
      ensures Value() == AfterFailure(cfg, old(Value()), now)
    {
      PruneAt(cfg, now);
      if lockedUntil > now {
        return Locked(Wait(lockedUntil, now));
      }
      failures := failures + [now];
      if |failures| >= cfg.MaxFailures() {
        lockedUntil := now + cfg.Lockout() as real;
        return Locked(cfg.Lockout());
      }
      return Pass;
    }
  }

  class Limiter {
    const cfg: Config
    var windows: map<string, AttemptWindow>

    constructor (cfg: Config)
      ensures this.cfg == cfg && Valid() && Contents() == map[]
    {
      this.cfg := cfg;
      windows := map[];
    }

    /** No two keys share a window object. */
    ghost predicate Valid()
      reads this
    {
      forall k, l :: k in windows && l in windows && k != l ==> windows[k] != windows[l]
    }

    ghost function Contents(): map<string, Track>
      reads this, windows.Values
    {
      map k | k in windows :: windows[k].Value()
    }

    /** `now` is the clock reading taken before the lock. */
    method CheckAllowed(key: string, now: real) returns (v: Verdict)
      requires Valid()
      modifies windows.Values
      ensures Valid() && windows == old(windows)
      ensures !cfg.enabled ==> v == Pass && Contents() == old(Contents())
      ensures cfg.enabled ==>
                && v == CheckVerdict(cfg, At(old(Contents()), key), now)
                && Contents() == Put(old(Contents()), key, AfterCheck(cfg, At(old(Contents()), key), now))
    {
      if !cfg.enabled {
        return Pass;
      }
      if key !in windows {
        return Pass;
      }
      var window := windows[key];
      window.PruneAt(cfg, now);
      if window.lockedUntil > now {
        return Locked(Wait(window.lockedUntil, now));
      }
      return Pass;
    }

    method SetDefault(key: string) returns (w: AttemptWindow)
      requires Valid()
      modifies this
      ensures Valid() && key in windows && windows[key] == w
      ensures if key in old(windows) then windows == old(windows)
              else fresh(w) && w.Value() == FRESH && windows == old(windows)[key := w]
    {
      if key !in windows {
        var created := new AttemptWindow();
        windows := windows[key := created];
      }
      return windows[key];
    }

    method RecordFailure(key: string, now: real) returns (v: Verdict)
      requires Valid()
      modifies this, windows.Values
      ensures Valid() && fresh(windows.Values - old(windows.Values))
      ensures !cfg.enabled ==> v == Pass && Contents() == old(Contents())
      ensures cfg.enabled ==>
                && v == FailureVerdict(cfg, At(old(Contents()), key).GetOr(FRESH), now)
                && Contents() == old(Contents())[key := AfterFailure(cfg, At(old(Contents()), key).GetOr(FRESH), now)]
    {
      hide Prune, Pruned, FailureVerdict, AfterFailure;
      if !cfg.enabled {
        return Pass;
      }
      var window := SetDefault(key);
      v := window.Fail(cfg, now);
    }

    method RecordSuccess(key: string)
      requires Valid()
      modifies this
      ensures Valid() && windows.Values <= old(windows.Values)
      ensures Contents() == if cfg.enabled then old(Contents()) - {key} else old(Contents())
    {
      if cfg.enabled {
        windows := windows - {key};
      }
    }
  }

  function At(m: map<string, Track>, key: string): Option<Track> {
    if key in m then Some(m[key]) else None
  }

  function Put(m: map<string, Track>, key: string, w: Option<Track>): map<string, Track> {
    if w.Some? then m[key := w.value] else m - {key}
  }
}
