/** The request limiter of `ratelimit.py`: one sliding window per operation and key. */
module RateLimiter {
  import opened SlidingWindow

  datatype Operation = Search | Ingest

  datatype Settings = Settings(enabled: bool, searchRpm: int, ingestRpm: int, burst: real) {
    function Rpm(op: Operation): int {
      if op.Search? then searchRpm else ingestRpm
    }

    function LimitOf(op: Operation): (n: nat)
      ensures n >= 1
    {
      Limit(Rpm(op), burst)
    }
  }

  /** One `check_search` or `check_ingest`, with the stamp its window sees. */
  datatype Call = Call(op: Operation, key: string, stamp: real)

  /** The deques of both dictionaries, by key. */
  datatype Deques = Deques(search: map<string, seq<real>>, ingest: map<string, seq<real>>) {
    function Of(op: Operation): map<string, seq<real>> {
      if op.Search? then search else ingest
    }

    function Put(op: Operation, key: string, ts: seq<real>): Deques {
      if op.Search? then this.(search := search[key := ts]) else this.(ingest := ingest[key := ts])
    }

    /** The deque a call meets: a key without a window gets a new, empty one. */
    function At(op: Operation, key: string): seq<real> {
      if key in Of(op) then Of(op)[key] else []
    }
  }

  function CheckDecision(cfg: Settings, d: Deques, c: Call): Decision {
    if cfg.enabled then Decide(cfg.LimitOf(c.op), d.At(c.op, c.key), c.stamp) else Allowed
  }

  function CheckState(cfg: Settings, d: Deques, c: Call): Deques {
    if cfg.enabled then d.Put(c.op, c.key, Next(cfg.LimitOf(c.op), d.At(c.op, c.key), c.stamp)) else d
  }

  /** A dictionary of windows, one per key. Distinct keys own distinct window objects. */
  class WindowStore {
    var windows: map<string, Window>

    constructor ()
      ensures windows == map[]
    {
      windows := map[];
    }

    ghost predicate Valid(limit: nat)
      reads this
    {
      && (forall k :: k in windows ==> windows[k].limit == limit)
      && (forall k, l :: k in windows && l in windows && k != l ==> windows[k] != windows[l])
    }

    ghost function Contents(): map<string, seq<real>>
      reads this, windows.Values
    {
      map k | k in windows :: windows[k].timestamps
    }
  }

  class Limiter {
    const settings: Settings
    const searchWindows: WindowStore
    const ingestWindows: WindowStore

    constructor (settings: Settings)
      ensures this.settings == settings && Valid() && fresh(searchWindows) && fresh(ingestWindows)
      ensures State() == Deques(map[], map[])
    {
      this.settings := settings;
      searchWindows := new WindowStore();
      ingestWindows := new WindowStore();
    }

    ghost predicate Valid()
      reads searchWindows, ingestWindows
    {
      && searchWindows != ingestWindows
      && searchWindows.windows.Values !! ingestWindows.windows.Values
      && searchWindows.Valid(settings.LimitOf(Search))
      && ingestWindows.Valid(settings.LimitOf(Ingest))
    }

    ghost function State(): Deques
      reads searchWindows, ingestWindows, searchWindows.windows.Values, ingestWindows.windows.Values
    {
      Deques(searchWindows.Contents(), ingestWindows.Contents())
    }

    method GetWindow(store: WindowStore, key: string, rpm: int) returns (w: Window)
      requires store.Valid(Limit(rpm, settings.burst))
      modifies store
      ensures store.Valid(Limit(rpm, settings.burst))
      ensures key in store.windows && store.windows[key] == w
      ensures if key in old(store.windows) then store.windows == old(store.windows)
              else fresh(w) && w.timestamps == [] && store.windows == old(store.windows)[key := w]
    {
      if key !in store.windows {
        var created := new Window(rpm, settings.burst);
        store.windows := store.windows[key := created];
      }
      return store.windows[key];
    }

    /** `Refused` stands for the HTTP 429 the source raises. */
    method Check(key: string, store: WindowStore, rpm: int, stamp: real) returns (decision: Decision)
      requires store.Valid(Limit(rpm, settings.burst))
      modifies store, store.windows.Values
      ensures store.Valid(Limit(rpm, settings.burst))
      ensures fresh(store.windows.Values - old(store.windows.Values))
      ensures !settings.enabled ==> decision == Allowed && store.Contents() == old(store.Contents())
      ensures settings.enabled ==>
                var limit := Limit(rpm, settings.burst);
                var met := if key in old(store.Contents()) then old(store.Contents())[key] else [];
                && decision == Decide(limit, met, stamp)
                && store.Contents() == old(store.Contents())[key := Next(limit, met, stamp)]
    {
      if !settings.enabled {
        return Allowed;
      }
      var window := GetWindow(store, key, rpm);
      decision := window.Allow(stamp);
    }

    method CheckSearch(key: string, stamp: real) returns (decision: Decision)
      requires Valid()
      modifies searchWindows, searchWindows.windows.Values
      ensures Valid()
      ensures fresh(searchWindows.windows.Values - old(searchWindows.windows.Values))
      ensures State() == CheckState(settings, old(State()), Call(Search, key, stamp))
      ensures decision == CheckDecision(settings, old(State()), Call(Search, key, stamp))
    {
      decision := Check(key, searchWindows, settings.searchRpm, stamp);
    }

    method CheckIngest(key: string, stamp: real) returns (decision: Decision)
      requires Valid()
      modifies ingestWindows, ingestWindows.windows.Values
      ensures Valid()
      ensures fresh(ingestWindows.windows.Values - old(ingestWindows.windows.Values))
      ensures State() == CheckState(settings, old(State()), Call(Ingest, key, stamp))
      ensures decision == CheckDecision(settings, old(State()), Call(Ingest, key, stamp))
    {
      decision := Check(key, ingestWindows, settings.ingestRpm, stamp);
    }
  }

  // ---------------------------------------------------------------- interleaved runs

  function RunState(cfg: Settings, calls: seq<Call>): Deques {
    if calls == [] then Deques(map[], map[]) else
      var n := |calls| - 1;
      CheckState(cfg, RunState(cfg, calls[..n]), calls[n])
  }

  /** What each call of the run was told. */
  function Decisions(cfg: Settings, calls: seq<Call>): (r: seq<Decision>)
    ensures |r| == |calls|
  {
    if calls == [] then [] else
      var n := |calls| - 1;
      Decisions(cfg, calls[..n]) + [CheckDecision(cfg, RunState(cfg, calls[..n]), calls[n])]
  }

  /** The stamps of the calls for one operation and key, in run order. */
  function StampsOf(calls: seq<Call>, op: Operation, key: string): seq<real> {
    if calls == [] then [] else
      var n := |calls| - 1;
      StampsOf(calls[..n], op, key)
      + if calls[n].op == op && calls[n].key == key then [calls[n].stamp] else []
  }

  /** What the calls for one operation and key were told, in run order. */
  function DecisionsOf(calls: seq<Call>, told: seq<Decision>, op: Operation, key: string): seq<Decision>
    requires |told| == |calls|
  {
    if calls == [] then [] else
      var n := |calls| - 1;
      DecisionsOf(calls[..n], told[..n], op, key)
      + if calls[n].op == op && calls[n].key == key then [told[n]] else []
  }

  /** What a lone sliding window tells a sequence of calls. */
  function Alone(limit: nat, stamps: seq<real>): seq<Decision>
    requires limit >= 1
  {
    if stamps == [] then [] else
      var n := |stamps| - 1;
      Alone(limit, stamps[..n]) + [Outcome(limit, stamps[..n], stamps[n])]
  }

  lemma {:induction false} DequeOfKey(cfg: Settings, calls: seq<Call>, op: Operation, key: string)
    requires cfg.enabled
    ensures RunState(cfg, calls).At(op, key) == Deque(cfg.LimitOf(op), StampsOf(calls, op, key))
  {
    if calls != [] {
      var n := |calls| - 1;
      DequeOfKey(cfg, calls[..n], op, key);
      if calls[n].op == op && calls[n].key == key {
        var before := StampsOf(calls[..n], op, key);
        assert StampsOf(calls, op, key)[..|before|] == before;
      } else {
        assert StampsOf(calls, op, key) == StampsOf(calls[..n], op, key);
      }
    }
  }

  /** Main result: per-key independence. In any interleaving, what one key is told for one
      operation is what a private sliding window fed with that key's own calls would say; the
      other keys and the other operation cannot be observed. */
  lemma {:induction false} KeysAreIndependent(cfg: Settings, calls: seq<Call>, op: Operation, key: string)
    requires cfg.enabled
    ensures DecisionsOf(calls, Decisions(cfg, calls), op, key) == Alone(cfg.LimitOf(op), StampsOf(calls, op, key))
  {
    if calls != [] {
      var n := |calls| - 1;
      KeysAreIndependent(cfg, calls[..n], op, key);
      DequeOfKey(cfg, calls[..n], op, key);
      assert Decisions(cfg, calls)[..n] == Decisions(cfg, calls[..n]);
      var before := StampsOf(calls[..n], op, key);
      if calls[n].op == op && calls[n].key == key {
        assert StampsOf(calls, op, key)[..|before|] == before;
      } else {
        assert StampsOf(calls, op, key) == before;
      }
    }
  }

  /** A disabled limiter refuses nothing and keeps no state. */
  lemma {:induction false} DisabledIsInert(cfg: Settings, calls: seq<Call>)
    requires !cfg.enabled
    ensures RunState(cfg, calls) == Deques(map[], map[])
    ensures forall i :: 0 <= i < |calls| ==> Decisions(cfg, calls)[i] == Allowed
  {
    if calls != [] {
      DisabledIsInert(cfg, calls[..|calls| - 1]);
    }
  }

  /** The stamps of the calls of one key that were let through. */
  function Passed(calls: seq<Call>, told: seq<Decision>, op: Operation, key: string): seq<real>
    requires |told| == |calls|
  {
    if calls == [] then [] else
      var n := |calls| - 1;
      Passed(calls[..n], told[..n], op, key)
      + if calls[n].op == op && calls[n].key == key && told[n].Allowed? then [calls[n].stamp] else []
  }

  lemma {:induction false} PassedIsAdmitted(cfg: Settings, calls: seq<Call>, op: Operation, key: string)
    requires cfg.enabled
    ensures Passed(calls, Decisions(cfg, calls), op, key) == Admitted(cfg.LimitOf(op), StampsOf(calls, op, key))
  {
    if calls != [] {
      var n := |calls| - 1;
      PassedIsAdmitted(cfg, calls[..n], op, key);
      DequeOfKey(cfg, calls[..n], op, key);
      assert Decisions(cfg, calls)[..n] == Decisions(cfg, calls[..n]);
      var before := StampsOf(calls[..n], op, key);
      if calls[n].op == op && calls[n].key == key {
        assert StampsOf(calls, op, key)[..|before|] == before;
      } else {
        assert StampsOf(calls, op, key) == before;
      }
    }
  }

  /** Main result: the rate limit of the service. Whatever the interleaving of keys and
      operations, if one key's stamps are at most d stale then at most rate times burst factor
      of its calls (but always one) are let through in any interval (x, x + 60 - d]. */
  lemma RateIsBounded(cfg: Settings, calls: seq<Call>, op: Operation, key: string, d: real, x: real)
    requires cfg.enabled && d >= 0.0 && Stale(StampsOf(calls, op, key), d)
    ensures var n := Count(Passed(calls, Decisions(cfg, calls), op, key), x, x + 60.0 - d);
            n <= 1 || n as real <= (if op.Search? then cfg.searchRpm else cfg.ingestRpm) as real * cfg.burst
  {
    hide Count, Passed, Decisions, StampsOf, Limit, Admitted;
    PassedIsAdmitted(cfg, calls, op, key);
    WindowSafety(cfg.LimitOf(op), StampsOf(calls, op, key), d, x);
    WithinLimit(if op.Search? then cfg.searchRpm else cfg.ingestRpm, cfg.burst,
                Count(Passed(calls, Decisions(cfg, calls), op, key), x, x + WINDOW - d));
  }

  lemma WithinLimit(rpm: int, burst: real, n: nat)
    requires n <= Limit(rpm, burst)
    ensures n <= 1 || n as real <= rpm as real * burst
  {
    hide Limit;
    LimitIsWholePart(rpm, burst);
  }

  // ---------------------------------------------------------------- in terms of the settings

  /** The calls of a run that passed for an operation and key in the last 60 seconds. */
  function PassedLately(calls: seq<Call>, told: seq<Decision>, op: Operation, key: string, now: real): set<nat>
    requires |told| == |calls|
  {
    set i: nat | i < |calls| && calls[i].op == op && calls[i].key == key && told[i].Allowed?
                 && now - 60.0 < calls[i].stamp <= now
  }

  lemma {:induction false} CountPassed(calls: seq<Call>, told: seq<Decision>, op: Operation, key: string, now: real)
    requires |told| == |calls|
    ensures |PassedLately(calls, told, op, key, now)| == Count(Passed(calls, told, op, key), now - 60.0, now)
  {
    hide PassedLately, Count;
    if calls == [] {
      NonePassed(op, key, now);
    } else {
      var n := |calls| - 1;
      var before := Passed(calls[..n], told[..n], op, key);
      CountPassed(calls[..n], told[..n], op, key, now);
      OnePassed(calls, told, op, key, now);
      CountConcat(before, [calls[n].stamp], now - 60.0, now);
      CountOne(calls[n].stamp, now - 60.0, now);
      assert before + [] == before;
    }
  }

  lemma NonePassed(op: Operation, key: string, now: real)
    ensures PassedLately([], [], op, key, now) == {} && Count([], now - 60.0, now) == 0
  {
  }

  lemma OnePassed(calls: seq<Call>, told: seq<Decision>, op: Operation, key: string, now: real)
    requires |told| == |calls| > 0
    ensures var n := |calls| - 1;
            var c := calls[n];
            |PassedLately(calls, told, op, key, now)| == |PassedLately(calls[..n], told[..n], op, key, now)|
              + if c.op == op && c.key == key && told[n].Allowed? && now - 60.0 < c.stamp <= now then 1 else 0
  {
    var n := |calls| - 1;
    var before, all := PassedLately(calls[..n], told[..n], op, key, now), PassedLately(calls, told, op, key, now);
    assert forall i: nat :: i < n ==> (i in all <==> i in before);
    assert n !in before;
    assert all == if n in all then before + {n} else before;
  }

  lemma CountOne(t: real, lo: real, hi: real)
    ensures Count([t], lo, hi) == if lo < t <= hi then 1 else 0
  {
    assert [t][..0] == [];
  }

  predicate IsFull(n: nat, rpm: int, burst: real) {
    n >= 1 && n as real + 1.0 > rpm as real * burst
  }

  /** The limit, said about counts: n reaches it when n + 1 exceeds rate times burst factor. */
  lemma ReachesLimit(rpm: int, burst: real, n: nat)
    ensures n >= Limit(rpm, burst) <==> IsFull(n, rpm, burst)
  {
    hide Limit;
    LimitIsWholePart(rpm, burst);
  }

  /** What the next call of an interleaved run is told. */
  function Told(cfg: Settings, calls: seq<Call>, c: Call): Decision {
    Decisions(cfg, calls + [c])[|calls|]
  }

  lemma ToldAlone(cfg: Settings, calls: seq<Call>, c: Call)
    requires cfg.enabled
    ensures Told(cfg, calls, c) == Outcome(cfg.LimitOf(c.op), StampsOf(calls, c.op, c.key), c.stamp)
  {
    var all := calls + [c];
    assert all[..|all| - 1] == calls;
    DequeOfKey(cfg, calls, c.op, c.key);
  }

  lemma RefusedByCount(cfg: Settings, calls: seq<Call>, c: Call, rpm: int)
    requires cfg.enabled && cfg.LimitOf(c.op) == Limit(rpm, cfg.burst)
    requires Sorted(StampsOf(calls, c.op, c.key) + [c.stamp])
    ensures var n := |PassedLately(calls, Decisions(cfg, calls), c.op, c.key, c.stamp)|;
            Told(cfg, calls, c).Refused? <==> IsFull(n, rpm, cfg.burst)
  {
    hide Limit, Count, Admitted, Passed, Decisions, PassedLately, Outcome, IsFull, Told, StampsOf;
    var stamps, limit := StampsOf(calls, c.op, c.key), cfg.LimitOf(c.op);
    ToldAlone(cfg, calls, c);
    CountPassed(calls, Decisions(cfg, calls), c.op, c.key, c.stamp);
    PassedIsAdmitted(cfg, calls, c.op, c.key);
    RefusedIffFull(limit, stamps, c.stamp);
    SortedParts(stamps, c.stamp);
    WindowSafety(limit, stamps, 0.0, c.stamp - WINDOW);
    ReachesLimit(rpm, cfg.burst, |PassedLately(calls, Decisions(cfg, calls), c.op, c.key, c.stamp)|);
  }

  /** Main result: the search limit as configured. With a key's stamps in order, its next search is
      refused if and only if n >= 1 of its searches passed in the last 60 seconds and one more would
      exceed the search rate times the burst factor. */
  lemma SearchRefusedIff(cfg: Settings, calls: seq<Call>, key: string, stamp: real)
    requires cfg.enabled && Sorted(StampsOf(calls, Search, key) + [stamp])
    ensures var n := |PassedLately(calls, Decisions(cfg, calls), Search, key, stamp)|;
            Told(cfg, calls, Call(Search, key, stamp)).Refused?
            <==> n >= 1 && n as real + 1.0 > cfg.searchRpm as real * cfg.burst
  {
    hide Limit, Told, PassedLately, Decisions, StampsOf;
    RefusedByCount(cfg, calls, Call(Search, key, stamp), cfg.searchRpm);
  }

  /** Main result: and the ingest limit. */
  lemma IngestRefusedIff(cfg: Settings, calls: seq<Call>, key: string, stamp: real)
    requires cfg.enabled && Sorted(StampsOf(calls, Ingest, key) + [stamp])
    ensures var n := |PassedLately(calls, Decisions(cfg, calls), Ingest, key, stamp)|;
            Told(cfg, calls, Call(Ingest, key, stamp)).Refused?
            <==> n >= 1 && n as real + 1.0 > cfg.ingestRpm as real * cfg.burst
  {
    hide Limit, Told, PassedLately, Decisions, StampsOf;
    RefusedByCount(cfg, calls, Call(Ingest, key, stamp), cfg.ingestRpm);
  }
}
