/** The reconnect supervisor: when it tries again, when it gives up. The outside world is a script
    of attempts: when each one starts, whether the reconnect call succeeds, when it fails, and
    whether the wait after a failure is cut short by shutdown. */
module Reconnect {
  import opened Bytes

  const SECOND := 1_000_000_000
  const FAILURE_WINDOW := 300 * SECOND
  const BACKOFF_STEP := 2 * SECOND
  const BACKOFF_MAX := 30 * SECOND

  /** `ok` covers the errors that the engine does not count as failures when it counts failures. */
  datatype Attempt = Attempt(now: int, ok: bool, failedAt: int, stop: bool)

  datatype Counter = Counter(count: nat, windowStart: Option<int>, lastRequest: Option<int>)

  const FRESH := Counter(0, None, None)

  datatype Config = Config(maxAttempts: int, countFailures: bool)

  function NextRequest(c: Counter, now: int): Counter {
    var expired := c.lastRequest.None? || now - c.lastRequest.value > FAILURE_WINDOW;
    c.(count := (if expired then 0 else c.count) + 1, lastRequest := Some(now))
  }

  function Checked(c: Counter, now: int): Counter {
    if c.windowStart.Some? && now - c.windowStart.value > FAILURE_WINDOW
    then c.(count := 0, windowStart := None) else c
  }

  function Recorded(c: Counter, now: int): Counter {
    c.(count := c.count + 1, windowStart := if c.windowStart.None? then Some(now) else c.windowStart)
  }

  function Cleared(c: Counter): Counter {
    c.(count := 0, windowStart := None)
  }

  /** The counter when an attempt decides whether to call reconnect. */
  function Before(cfg: Config, c: Counter, a: Attempt): Counter {
    if cfg.countFailures then Checked(c, a.now) else NextRequest(c, a.now)
  }

  /** The counter after the call. */
  function After(cfg: Config, c: Counter, a: Attempt): Counter {
    if !cfg.countFailures then c else if a.ok then Cleared(c) else Recorded(c, a.failedAt)
  }

  function Backoff(count: int): (d: int)
    ensures d <= BACKOFF_MAX && (0 <= count ==> 0 <= d)
    ensures 0 <= count <= 15 ==> d == count * BACKOFF_STEP
    ensures count >= 15 ==> d == BACKOFF_MAX
  {
    Min(count * BACKOFF_STEP, BACKOFF_MAX)
  }

  /** How a stretch of attempts ends; `Running` means the script ends first. */
  datatype End = Limit | Served | Stopped | Running

  datatype Outcome = Outcome(c: Counter, used: nat, calls: nat, end: End)

  /** One reconnect request, retried until it succeeds, is stopped or hits the limit. */
  function Serve(cfg: Config, c: Counter, script: seq<Attempt>): (r: Outcome)
    ensures r.used <= |script| && (r.end.Served? ==> r.used > 0)
    decreases |script|
  {
    if script == [] then Outcome(c, 0, 0, Running)
    else
      var a := script[0];
      var c1 := Before(cfg, c, a);
      if c1.count > cfg.maxAttempts then Outcome(c1, 1, 0, Limit)
      else
        var c2 := After(cfg, c1, a);
        if a.ok then Outcome(c2, 1, 1, Served)
        else if a.stop then Outcome(c2, 1, 1, Stopped)
        else
          var r := Serve(cfg, c2, script[1..]);
          r.(used := r.used + 1, calls := r.calls + 1)
  }

  /** Request after request, until one of them ends the supervisor. */
  function Supervise(cfg: Config, c: Counter, script: seq<Attempt>): (r: Outcome)
    ensures r.used <= |script|
    decreases |script|
  {
    var r := Serve(cfg, c, script);
    if r.end.Served? then
      var rest := Supervise(cfg, r.c, script[r.used..]);
      rest.(used := r.used + rest.used, calls := r.calls + rest.calls)
    else r
  }

  lemma SuperviseFrom(cfg: Config, c: Counter, script: seq<Attempt>, used: nat)
    requires used <= |script|
    ensures var r := Serve(cfg, c, script[used..]);
            && r.used <= |script| - used
            && (r.end.Served? ==>
                  var rest := Supervise(cfg, r.c, script[used + r.used..]);
                  Supervise(cfg, c, script[used..]) == rest.(used := r.used + rest.used, calls := r.calls + rest.calls))
            && (!r.end.Served? ==> Supervise(cfg, c, script[used..]) == r)
  {
    hide Serve;
    var r := Serve(cfg, c, script[used..]);
    assert script[used..][r.used..] == script[used + r.used..];
  }

  datatype RequestResult = Rejected | Queued | Coalesced

  class Reconnector {
    const cfg: Config
    var count: nat
    var windowStart: Option<int>
    var lastRequest: Option<int>
    var queued: bool

    function Value(): Counter
      reads this
    {
      Counter(count, windowStart, lastRequest)
    }

    constructor (cfg: Config)
      ensures this.cfg == cfg && Value() == FRESH && !queued
    {
      this.cfg := cfg;
      count, windowStart, lastRequest, queued := 0, None, None, false;
    }

    /** The queue has one slot. */
    method Request(closed: bool, reconnecting: bool, wanted: bool) returns (r: RequestResult)
      modifies this`queued
      ensures r == if closed || reconnecting || !wanted then Rejected else if old(queued) then Coalesced else Queued
      ensures queued == (old(queued) || r.Queued?)
    {
      if closed || reconnecting || !wanted {
        return Rejected;
      }
      if queued {
        return Coalesced;
      }
      queued := true;
      return Queued;
    }

    method Drain() returns (drained: bool)
      modifies this`queued
      ensures !queued && drained == old(queued)
    {
      drained := false;
      while queued
        invariant drained || queued == old(queued)
        invariant drained ==> old(queued)
        decreases queued
      {
        queued, drained := false, true;
      }
    }

    method NextRequestCount(now: int) returns (n: nat)
      modifies this
      ensures Value() == NextRequest(old(Value()), now) && n == count && queued == old(queued)
    {
      if lastRequest.None? || now - lastRequest.value > FAILURE_WINDOW {
        count := 0;
      }
      count := count + 1;
      lastRequest := Some(now);
      return count;
    }

    method FailureCount(now: int) returns (n: nat)
      modifies this
      ensures Value() == Checked(old(Value()), now) && n == count && queued == old(queued)
    {
      if windowStart.Some? && now - windowStart.value > FAILURE_WINDOW {
        count, windowStart := 0, None;
      }
      return count;
    }

    method RecordFailure(now: int)
      modifies this
      ensures Value() == Recorded(old(Value()), now) && queued == old(queued)
    {
      count := count + 1;
      if windowStart.None? {
        windowStart := Some(now);
      }
    }

    method ResetFailures()
      modifies this
      ensures Value() == Cleared(old(Value())) && queued == old(queued)
    {
      count, windowStart := 0, None;
    }

    /** Serves one request in request-counting mode. */
    method HandleRequestAttempt(script: seq<Attempt>) returns (used: nat, calls: nat, end: End)
      requires !cfg.countFailures
      modifies this
      ensures Outcome(Value(), used, calls, end) == Serve(cfg, old(Value()), script)
      ensures queued == (old(queued) && !end.Served?)
    {
      used, calls := 0, 0;
      while used < |script|
        invariant used <= |script| && queued == old(queued)
        invariant var r := Serve(cfg, Value(), script[used..]);
                  r.(used := r.used + used, calls := r.calls + calls) == Serve(cfg, old(Value()), script)
      {
        var a := script[used];
        assert script[used..][0] == a && script[used..][1..] == script[used + 1..];
        var n := NextRequestCount(a.now);
        used := used + 1;
        if n > cfg.maxAttempts {
          return used, calls, Limit;
        }
        calls := calls + 1;
        if a.ok {
          var _ := Drain();
          return used, calls, Served;
        }
        if a.stop {
          return used, calls, Stopped;
        }
      }
      return used, calls, Running;
    }

    /** Serves one request in failure-counting mode. */
    method HandleFailureAttempts(script: seq<Attempt>) returns (used: nat, calls: nat, end: End)
      requires cfg.countFailures
      modifies this
      ensures Outcome(Value(), used, calls, end) == Serve(cfg, old(Value()), script)
      ensures queued == (old(queued) && !end.Served?)
    {
      used, calls := 0, 0;
      while used < |script|
        invariant used <= |script| && queued == old(queued)
        invariant var r := Serve(cfg, Value(), script[used..]);
                  r.(used := r.used + used, calls := r.calls + calls) == Serve(cfg, old(Value()), script)
      {
        var a := script[used];
        assert script[used..][0] == a && script[used..][1..] == script[used + 1..];
        var n := FailureCount(a.now);
        used := used + 1;
        if n > cfg.maxAttempts {
          return used, calls, Limit;
        }
        calls := calls + 1;
        if a.ok {
          ResetFailures();
          var _ := Drain();
          return used, calls, Served;
        }
        RecordFailure(a.failedAt);
        if a.stop {
          return used, calls, Stopped;
        }
      }
      return used, calls, Running;
    }

    /** Services requests until one of them ends the supervisor. */
    method Watch(script: seq<Attempt>) returns (used: nat, calls: nat, end: End)
      modifies this
      ensures Outcome(Value(), used, calls, end) == Supervise(cfg, old(Value()), script)
    {
      used, calls, end := 0, 0, Served;
      while end.Served?
        invariant used <= |script|
        invariant var r := if end.Served? then Supervise(cfg, Value(), script[used..]) else Outcome(Value(), 0, 0, end);
                  r.(used := r.used + used, calls := r.calls + calls) == Supervise(cfg, old(Value()), script)
        decreases |script| - used, if end.Served? then 1 else 0
      {
        SuperviseFrom(cfg, Value(), script, used);
        hide Serve, Before, After, Supervise;
        var u, k;
        if cfg.countFailures {
          u, k, end := HandleFailureAttempts(script[used..]);
        } else {
          u, k, end := HandleRequestAttempt(script[used..]);
        }
        used, calls := used + u, calls + k;
      }
    }
  }

  // --------------------------------------------------------------- one long loop

  /** The supervisor as a single loop over attempts, successes included. */
  function Flat(cfg: Config, c: Counter, script: seq<Attempt>): (r: Outcome)
    decreases |script|
  {
    if script == [] then Outcome(c, 0, 0, Running)
    else
      var a := script[0];
      var c1 := Before(cfg, c, a);
      if c1.count > cfg.maxAttempts then Outcome(c1, 1, 0, Limit)
      else
        var c2 := After(cfg, c1, a);
        if !a.ok && a.stop then Outcome(c2, 1, 1, Stopped)
        else
          var r := Flat(cfg, c2, script[1..]);
          r.(used := r.used + 1, calls := r.calls + 1)
  }

  /** What the attempt at index `n` leads to. */
  lemma FlatFrom(cfg: Config, c: Counter, script: seq<Attempt>, n: nat)
    requires n < |script|
    ensures var a := script[n];
            var c1 := Before(cfg, c, a);
            var c2 := After(cfg, c1, a);
            var r := Flat(cfg, c2, script[n + 1..]);
            Flat(cfg, c, script[n..]) ==
              if c1.count > cfg.maxAttempts then Outcome(c1, 1, 0, Limit)
              else if !a.ok && a.stop then Outcome(c2, 1, 1, Stopped)
              else r.(used := r.used + 1, calls := r.calls + 1)
  {
    hide Before, After;
    assert script[n..][0] == script[n] && script[n..][1..] == script[n + 1..];
  }

  lemma {:induction false} SuperviseIsFlat(cfg: Config, c: Counter, script: seq<Attempt>)
    ensures Supervise(cfg, c, script) == Flat(cfg, c, script)
    decreases |script|
  {
    if script != [] {
      var a := script[0];
      var c1 := Before(cfg, c, a);
      if c1.count <= cfg.maxAttempts && (a.ok || !a.stop) {
        SuperviseIsFlat(cfg, After(cfg, c1, a), script[1..]);
        if !a.ok {
          var r := Serve(cfg, After(cfg, c1, a), script[1..]);
          assert script[1..][r.used..] == script[r.used + 1..];
        }
      }
    }
  }

  /** No wait after one of the first `n` attempts is cut short by shutdown. */
  ghost predicate Undisturbed(script: seq<Attempt>, n: nat) {
    n <= |script| && forall i :: 0 <= i < n ==> script[i].ok || !script[i].stop
  }

  // ------------------------------------------------------- request-counting mode

  /** How many attempts the current burst has: attempts at most a window apart. */
  function Burst(script: seq<Attempt>): nat {
    if script == [] then 0
    else
      var n := |script| - 1;
      if n > 0 && script[n].now - script[n - 1].now <= FAILURE_WINDOW then Burst(script[..n]) + 1 else 1
  }

  /** The last `m` attempts follow each other within the window. */
  ghost predicate Dense(script: seq<Attempt>, m: nat) {
    && m <= |script|
    && forall i :: |script| - m < i < |script| ==> script[i].now - script[i - 1].now <= FAILURE_WINDOW
  }

  lemma {:induction false} BurstIsDense(script: seq<Attempt>, m: nat)
    requires m > 0
    ensures Burst(script) >= m <==> Dense(script, m)
  {
    if script != [] && m > 1 {
      var n := |script| - 1;
      var front := script[..n];
      BurstIsDense(front, m - 1);
      if Dense(script, m) {
        assert script[n].now - script[n - 1].now <= FAILURE_WINDOW;
        forall i | |front| - (m - 1) < i < |front| ensures front[i].now - front[i - 1].now <= FAILURE_WINDOW {
          assert script[i].now - script[i - 1].now <= FAILURE_WINDOW;
        }
      }
      if Dense(front, m - 1) && n > 0 && script[n].now - script[n - 1].now <= FAILURE_WINDOW {
        forall i | |script| - m < i < |script| ensures script[i].now - script[i - 1].now <= FAILURE_WINDOW {
          if i < n {
            assert front[i].now - front[i - 1].now <= FAILURE_WINDOW;
          }
        }
      }
    }
  }

  /** The counter after the first `n` attempts of a supervisor that counts requests. */
  ghost predicate Counts(c: Counter, script: seq<Attempt>, n: nat) {
    && n <= |script| && c.count == Burst(script[..n])
    && c.lastRequest == if n == 0 then None else Some(script[n - 1].now)
  }

  lemma NextCounts(c: Counter, script: seq<Attempt>, n: nat)
    requires Counts(c, script, n) && n < |script|
    ensures Counts(NextRequest(c, script[n].now), script, n + 1)
  {
    assert script[..n + 1][..n] == script[..n];
  }

  lemma {:induction false} FlatRequest(cfg: Config, c: Counter, script: seq<Attempt>, n: nat)
    requires !cfg.countFailures && Counts(c, script, n) && Undisturbed(script, n)
    ensures var r := Flat(cfg, c, script[n..]);
            && n + r.used <= |script| && r.calls <= r.used
            && (r.end == Limit ==>
                  && r.used > 0 && r.calls == r.used - 1 && Undisturbed(script, n + r.calls)
                  && Burst(script[..n + r.used]) > cfg.maxAttempts)
            && (r.end == Stopped ==> r.used > 0 && r.calls == r.used && !Undisturbed(script, n + r.used))
            && (r.end == Running ==> r.calls == r.used == |script| - n && Undisturbed(script, |script|))
            && r.end != Served
            && (forall k :: n < k <= n + r.calls ==> Burst(script[..k]) <= cfg.maxAttempts)
    decreases |script| - n
  {
    if n < |script| {
      NextCounts(c, script, n);
      var c1 := NextRequest(c, script[n].now);
      FlatFrom(cfg, c, script, n);
      hide Burst, Flat;
      if c1.count <= cfg.maxAttempts && (script[n].ok || !script[n].stop) {
        FlatRequest(cfg, c1, script, n + 1);
      }
    }
  }

  /** Attempt number `n` is one too many: it starts before any shutdown, and it and the maxAttempts
      before it started at most five minutes after one another. */
  ghost predicate OneTooMany(cfg: Config, script: seq<Attempt>, n: nat) {
    0 < n <= |script| && Undisturbed(script, n - 1) && Dense(script[..n], Max(0, cfg.maxAttempts) + 1)
  }

  /** Counting requests, the limit is reached exactly when some maxAttempts + 1 attempts in a row
      start at most five minutes after one another before any shutdown, whatever their outcomes;
      and it is reached on the first such attempt, in place of its reconnect call. */
  lemma LimitIffBurst(cfg: Config, script: seq<Attempt>)
    requires !cfg.countFailures
    ensures var r := Supervise(cfg, FRESH, script);
            && (r.end == Limit <==> exists n: nat :: OneTooMany(cfg, script, n))
            && (r.end == Limit ==>
                  r.calls == r.used - 1 && OneTooMany(cfg, script, r.used)
                  && forall n: nat :: n < r.used ==> !OneTooMany(cfg, script, n))
  {
    SuperviseIsFlat(cfg, FRESH, script);
    assert script[0..] == script;
    FlatRequest(cfg, FRESH, script, 0);
    var r := Flat(cfg, FRESH, script);
    hide Flat, Supervise, Dense;
    forall n: nat | 0 < n <= |script|
      ensures OneTooMany(cfg, script, n) <==> Undisturbed(script, n - 1) && Burst(script[..n]) > cfg.maxAttempts
    {
      BurstIsDense(script[..n], Max(0, cfg.maxAttempts) + 1);
      assert Burst(script[..n]) > 0;
    }
    if n: nat :| OneTooMany(cfg, script, n) {
      assert r.end == Stopped ==> n <= r.calls;
    }
  }

  lemma {:induction false} DenseCalls(cfg: Config, c: Counter, script: seq<Attempt>, n: nat)
    requires !cfg.countFailures && Dense(script, |script|) && n <= |script|
    requires c.count == n && c.lastRequest == if n == 0 then None else Some(script[n - 1].now)
    ensures n + Flat(cfg, c, script[n..]).calls <= Max(n, cfg.maxAttempts)
    decreases |script| - n
  {
    if n < |script| {
      assert script[n..][0] == script[n] && script[n..][1..] == script[n + 1..];
      if n + 1 <= cfg.maxAttempts {
        DenseCalls(cfg, NextRequest(c, script[n].now), script, n + 1);
      }
    }
  }

  /** Attempts at most five minutes apart make at most maxAttempts reconnect calls, successes or
      not; and unless shutdown comes first, the attempt after that ends the supervisor. */
  lemma RequestBound(cfg: Config, script: seq<Attempt>)
    requires !cfg.countFailures && Dense(script, |script|)
    ensures var r := Supervise(cfg, FRESH, script);
            var most := Max(0, cfg.maxAttempts);
            && r.calls <= most
            && (|script| > most && Undisturbed(script, most) ==> r.end == Limit && r.calls == most)
            && (|script| <= most && Undisturbed(script, |script|) ==> r.end == Running && r.calls == |script|)
  {
    SuperviseIsFlat(cfg, FRESH, script);
    assert script[0..] == script;
    DenseCalls(cfg, FRESH, script, 0);
    LimitIffBurst(cfg, script);
    FlatRequest(cfg, FRESH, script, 0);
    hide Supervise, Flat, Burst;
    var most := Max(0, cfg.maxAttempts);
    if |script| > most && Undisturbed(script, most) {
      assert Dense(script[..most + 1], most + 1);
      assert OneTooMany(cfg, script, most + 1);
    }
  }

  // ------------------------------------------------------- failure-counting mode

  /** The counter after the first `n` attempts: it counts the failures of the last `count` attempts,
      and its window started with the first of them. */
  ghost predicate Tracks(c: Counter, script: seq<Attempt>, n: nat) {
    && c.count <= n <= |script|
    && (forall j :: n - c.count <= j < n ==> !script[j].ok)
    && c.windowStart == if c.count == 0 then None else Some(script[n - c.count].failedAt)
  }

  lemma FailureTracks(cfg: Config, c: Counter, script: seq<Attempt>, n: nat)
    requires cfg.countFailures && Tracks(c, script, n) && n < |script|
    ensures Tracks(Before(cfg, c, script[n]), script, n)
    ensures Tracks(After(cfg, Before(cfg, c, script[n]), script[n]), script, n + 1)
  {
  }

  /** Why attempt `n` is where the supervisor gives up. */
  ghost predicate Justified(cfg: Config, script: seq<Attempt>, n: nat) {
    n < |script| &&
    exists i :: 0 <= i <= n && n - i > cfg.maxAttempts && AllFailed(script, i, n)
                && (i < n ==> script[n].now - script[i].failedAt <= FAILURE_WINDOW)
  }

  ghost predicate AllFailed(script: seq<Attempt>, i: nat, n: nat) {
    i <= n <= |script| && forall j :: i <= j < n ==> !script[j].ok
  }

  lemma {:induction false} FlatFailure(cfg: Config, c: Counter, script: seq<Attempt>, n: nat)
    requires cfg.countFailures && Tracks(c, script, n)
    ensures var r := Flat(cfg, c, script[n..]);
            r.end == Limit ==> r.used > 0 && r.calls == r.used - 1 && Justified(cfg, script, n + r.used - 1)
    decreases |script| - n
  {
    if n < |script| {
      var c1 := Before(cfg, c, script[n]);
      FailureTracks(cfg, c, script, n);
      assert script[n..][0] == script[n] && script[n..][1..] == script[n + 1..];
      if c1.count > cfg.maxAttempts {
        assert AllFailed(script, n - c1.count, n);
      } else if script[n].ok || !script[n].stop {
        FlatFailure(cfg, After(cfg, c1, script[n]), script, n + 1);
      }
    }
  }

  /** Counting failures, the limit is reached only after maxAttempts + 1 failed attempts in a row,
      checked within five minutes of the first of them. */
  lemma LimitOnlyAfterFailures(cfg: Config, script: seq<Attempt>)
    requires cfg.countFailures
    ensures var r := Supervise(cfg, FRESH, script);
            r.end == Limit ==> r.used > 0 && r.calls == r.used - 1 && Justified(cfg, script, r.used - 1)
  {
    SuperviseIsFlat(cfg, FRESH, script);
    assert script[0..] == script;
    FlatFailure(cfg, FRESH, script, 0);
  }

  /** The attempt whose failure opened the window that attempt `n` checks, or `n` when that check
      finds none: a success closes a window, and so does a check made too late. */
  function Opened(script: seq<Attempt>, n: nat): (i: nat)
    requires n < |script|
    ensures i <= n
  {
    if n == 0 || script[n - 1].ok then n
    else
      var i := Opened(script, n - 1);
      if script[n].now - script[i].failedAt > FAILURE_WINDOW then n else i
  }

  lemma CheckedAgrees(cfg: Config, c: Counter, script: seq<Attempt>, n: nat)
    requires cfg.countFailures && n < |script| && Tracks(c, script, n)
    requires n > 0 ==> c.count == if script[n - 1].ok then 0 else n - Opened(script, n - 1)
    ensures Before(cfg, c, script[n]).count == n - Opened(script, n)
  {
  }

  lemma AfterAgrees(cfg: Config, c: Counter, a: Attempt, failures: nat)
    requires cfg.countFailures && c.count == failures
    ensures After(cfg, c, a).count == if a.ok then 0 else failures + 1
  {
  }

  /** How the supervisor ends from the attempt at index `n` on. */
  ghost predicate EndsRight(cfg: Config, script: seq<Attempt>, n: nat, r: Outcome) {
    && n + r.used <= |script| && r.calls <= r.used && r.end != Served
    && (r.end == Limit ==>
          && r.used > 0 && r.calls == r.used - 1 && Undisturbed(script, n + r.calls)
          && Full(cfg, script, n + r.used - 1))
    && (r.end == Stopped ==> r.used > 0 && r.calls == r.used && !Undisturbed(script, n + r.used))
    && (r.end == Running ==> r.calls == r.used == |script| - n && Undisturbed(script, |script|))
    && (forall k :: n <= k < n + r.calls ==> !Full(cfg, script, k))
  }

  lemma EndsRightStep(cfg: Config, script: seq<Attempt>, n: nat, r: Outcome)
    requires n < |script| && EndsRight(cfg, script, n + 1, r) && !Full(cfg, script, n)
    ensures EndsRight(cfg, script, n, r.(used := r.used + 1, calls := r.calls + 1))
  {
  }

  lemma EndsRightHere(cfg: Config, c: Counter, script: seq<Attempt>, n: nat)
    requires Undisturbed(script, n)
    ensures n == |script| ==> EndsRight(cfg, script, n, Flat(cfg, c, script[n..]))
    ensures n < |script| && Full(cfg, script, n) ==> EndsRight(cfg, script, n, Outcome(c, 1, 0, Limit))
    ensures n < |script| && !Full(cfg, script, n) && !script[n].ok && script[n].stop ==>
              EndsRight(cfg, script, n, Outcome(c, 1, 1, Stopped))
  {
    hide Opened;
    if n == |script| {
      assert script[n..] == [];
    }
  }

  lemma {:induction false} FlatWindow(cfg: Config, c: Counter, script: seq<Attempt>, n: nat)
    requires cfg.countFailures && Undisturbed(script, n) && Tracks(c, script, n)
    requires n > 0 ==> c.count == if script[n - 1].ok then 0 else n - Opened(script, n - 1)
    ensures EndsRight(cfg, script, n, Flat(cfg, c, script[n..]))
    decreases |script| - n
  {
    hide Before, After, Opened, Tracks, Flat, EndsRight;
    EndsRightHere(cfg, c, script, n);
    if n < |script| {
      var c1 := Before(cfg, c, script[n]);
      var c2 := After(cfg, c1, script[n]);
      FailureTracks(cfg, c, script, n);
      CheckedAgrees(cfg, c, script, n);
      AfterAgrees(cfg, c1, script[n], n - Opened(script, n));
      FlatFrom(cfg, c, script, n);
      EndsRightHere(cfg, c1, script, n);
      EndsRightHere(cfg, c2, script, n);
      if c1.count <= cfg.maxAttempts && (script[n].ok || !script[n].stop) {
        FlatWindow(cfg, c2, script, n + 1);
        EndsRightStep(cfg, script, n, Flat(cfg, c2, script[n + 1..]));
      }
    }
  }

  /** The window that the attempt at index `n` checks holds more failures than allowed. */
  ghost predicate Full(cfg: Config, script: seq<Attempt>, n: nat) {
    n < |script| && n - Opened(script, n) > cfg.maxAttempts
  }

  ghost predicate Exhausted(cfg: Config, script: seq<Attempt>, n: nat) {
    Full(cfg, script, n) && Undisturbed(script, n)
  }

  /** Counting failures, the limit is reached exactly at the first attempt whose window already
      holds more than maxAttempts failures, unless shutdown comes before it. */
  lemma LimitIffWindowFull(cfg: Config, script: seq<Attempt>)
    requires cfg.countFailures
    ensures var r := Supervise(cfg, FRESH, script);
            && (r.end == Limit <==> exists n: nat :: Exhausted(cfg, script, n))
            && (r.end == Limit ==>
                  && r.used > 0 && r.calls == r.used - 1 && Exhausted(cfg, script, r.used - 1)
                  && forall n: nat :: n < r.used - 1 ==> !Exhausted(cfg, script, n))
  {
    SuperviseIsFlat(cfg, FRESH, script);
    assert script[0..] == script;
    FlatWindow(cfg, FRESH, script, 0);
    var r := Flat(cfg, FRESH, script);
    hide Flat, Supervise, Opened;
    if r.end == Limit {
      assert Exhausted(cfg, script, r.used - 1);
    } else {
      forall n: nat ensures !Exhausted(cfg, script, n) {
        assert Full(cfg, script, n) ==> n >= r.calls;
      }
    }
  }

  lemma {:induction false} OneWindow(script: seq<Attempt>, n: nat)
    requires n < |script| && AllFailed(script, 0, n)
    requires forall j :: 0 < j <= n ==> script[j].now - script[0].failedAt <= FAILURE_WINDOW
    ensures Opened(script, n) == 0
  {
    if n > 0 {
      OneWindow(script, n - 1);
    }
  }

  /** When every attempt fails and is checked within five minutes of the first failure, at most
      maxAttempts + 1 reconnect calls are made, and exactly that many unless shutdown comes first. */
  lemma FailureBound(cfg: Config, script: seq<Attempt>)
    requires cfg.countFailures && AllFailed(script, 0, |script|)
    requires forall j :: 0 < j < |script| ==> script[j].now - script[0].failedAt <= FAILURE_WINDOW
    ensures var r := Supervise(cfg, FRESH, script);
            var most := Max(0, cfg.maxAttempts + 1);
            && r.calls <= most
            && (|script| > most && Undisturbed(script, most) ==> r.end == Limit && r.calls == most)
            && (|script| <= most && Undisturbed(script, |script|) ==> r.end == Running && r.calls == |script|)
  {
    SuperviseIsFlat(cfg, FRESH, script);
    assert script[0..] == script;
    FlatWindow(cfg, FRESH, script, 0);
    var r := Flat(cfg, FRESH, script);
    hide Supervise, Flat, Opened;
    forall n: nat | n < |script| ensures Full(cfg, script, n) <==> n > cfg.maxAttempts {
      OneWindow(script, n);
    }
    var most: nat := Max(0, cfg.maxAttempts + 1);
    assert r.calls > most ==> !Full(cfg, script, most);
  }

  /** The window does not slide: three failed attempts in a row within five minutes pass a limit of
      two when the first of them belongs to a window that closes in between. */
  lemma WindowDoesNotSlide()
    ensures var cfg := Config(2, true);
            var script := [Attempt(0, false, SECOND, false), Attempt(3 * SECOND, false, 299 * SECOND, false),
                           Attempt(302 * SECOND, false, 303 * SECOND, false),
                           Attempt(305 * SECOND, false, 306 * SECOND, false), Attempt(309 * SECOND, true, 0, false)];
            && AllFailed(script, 1, 4) && script[4].now - script[1].failedAt <= FAILURE_WINDOW
            && Supervise(cfg, FRESH, script).end == Running && Supervise(cfg, FRESH, script).calls == 5
  {
    var cfg := Config(2, true);
    var script := [Attempt(0, false, SECOND, false), Attempt(3 * SECOND, false, 299 * SECOND, false),
                   Attempt(302 * SECOND, false, 303 * SECOND, false),
                   Attempt(305 * SECOND, false, 306 * SECOND, false), Attempt(309 * SECOND, true, 0, false)];
    assert Undisturbed(script, |script|);
    SuperviseIsFlat(cfg, FRESH, script);
    assert script[0..] == script;
    FlatWindow(cfg, FRESH, script, 0);
    hide Supervise, Flat;
    assert Opened(script, 0) == 0 && Opened(script, 1) == 0;
    assert Opened(script, 2) == 2 && Opened(script, 3) == 2 && Opened(script, 4) == 2;
    forall n: nat | n < |script| ensures !Full(cfg, script, n) {
      assert n == 0 || n == 1 || n == 2 || n == 3 || n == 4;
    }
  }
}
