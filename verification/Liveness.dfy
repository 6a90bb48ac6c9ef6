/** Ping/pong liveness of the control stream: what is pending, what counts as a failure, and when
    the stream is declared unhealthy. */
module Liveness {
  import opened Bytes

  const TWO64 := 0x1_0000_0000_0000_0000
  const SECOND := 1_000_000_000
  const DEFAULT_INTERVAL := 10 * SECOND
  const DEFAULT_TIMEOUT := 15 * SECOND
  const DEFAULT_FAILURES := 4

  datatype Config = Config(interval: int, timeout: int, failures: int) {
    predicate Valid() {
      interval > 0 && timeout > 0 && failures > 0
    }
  }

  /** A setting that is not positive means the default. */
  function WithDefaults(cfg: Config): (r: Config)
    ensures r.Valid()
    ensures cfg.interval > 0 ==> r.interval == cfg.interval
    ensures cfg.timeout > 0 ==> r.timeout == cfg.timeout
    ensures cfg.failures > 0 ==> r.failures == cfg.failures
    ensures cfg.interval <= 0 ==> r.interval == DEFAULT_INTERVAL
    ensures cfg.timeout <= 0 ==> r.timeout == DEFAULT_TIMEOUT
    ensures cfg.failures <= 0 ==> r.failures == DEFAULT_FAILURES
  {
    Config(if cfg.interval <= 0 then DEFAULT_INTERVAL else cfg.interval,
           if cfg.timeout <= 0 then DEFAULT_TIMEOUT else cfg.timeout,
           if cfg.failures <= 0 then DEFAULT_FAILURES else cfg.failures)
  }

  /** `pending` maps the sequence number of an outstanding ping to the time it was sent. */
  datatype Monitor = Monitor(pending: map<nat, int>, nextSeq: nat, failures: nat)

  const FRESH := Monitor(map[], 0, 0)

  function Late(pending: map<nat, int>, now: int, timeout: int): set<nat> {
    set k | k in pending && now - pending[k] >= timeout
  }

  /** Late pings become failures. */
  function Expire(m: Monitor, now: int, timeout: int): Monitor {
    var late := Late(m.pending, now, timeout);
    m.(pending := m.pending - late, failures := m.failures + |late|)
  }

  predicate Unhealthy(cfg: Config, m: Monitor, now: int) {
    Expire(m, now, cfg.timeout).failures >= cfg.failures
  }

  /** One probe of a healthy stream. */
  function Probe(cfg: Config, m: Monitor, now: int): Monitor {
    var m1 := Expire(m, now, cfg.timeout);
    var k := (m1.nextSeq + 1) % TWO64;
    m1.(nextSeq := k, pending := m1.pending[k := now])
  }

  function Answer(m: Monitor, k: nat): Monitor {
    if k in m.pending then m.(pending := m.pending - {k}, failures := 0) else m
  }

  class ControlState {
    const cfg: Config
    var pending: map<nat, int>
    var nextSeq: nat
    var failures: nat

    function Value(): Monitor
      reads this
    {
      Monitor(pending, nextSeq, failures)
    }

    constructor (cfg: Config)
      ensures this.cfg == WithDefaults(cfg) && Value() == FRESH
    {
      this.cfg := WithDefaults(cfg);
      pending, nextSeq, failures := map[], 0, 0;
    }

    /** A tick: returns how many pings expired now, the failure count to report, and whether a new
        ping went out. */
    method SendProbe(now: int) returns (missedNow: nat, missed: nat, sent: bool)
      modifies this
      ensures missedNow == |Late(old(pending), now, cfg.timeout)| && missed == old(failures) + missedNow
      ensures sent <==> !old(Unhealthy(cfg, Value(), now))
      ensures Value() == if sent then old(Probe(cfg, Value(), now)) else old(Expire(Value(), now, cfg.timeout))
    {
      missedNow := 0;
      var todo := pending.Keys;
      ghost var late := Late(pending, now, cfg.timeout);
      ghost var done: set<nat> := {};
      while todo != {}
        invariant todo <= pending.Keys && done <= late && late - done <= todo
        invariant pending == old(pending) - done
        invariant missedNow == |done| && failures == old(failures) + missedNow && nextSeq == old(nextSeq)
        decreases todo
      {
        var k :| k in todo;
        todo := todo - {k};
        if now - pending[k] >= cfg.timeout {
          pending := pending - {k};
          failures := failures + 1;
          missedNow := missedNow + 1;
          done := done + {k};
        }
      }
      assert done == late;
      missed := failures;
      if failures >= cfg.failures {
        return missedNow, missed, false;
      }
      nextSeq := (nextSeq + 1) % TWO64;
      pending := pending[nextSeq := now];
      sent := true;
    }

    /** A pong: the matched ping's send time, if it matches one. */
    method HandlePong(k: nat) returns (sentAt: Option<int>)
      modifies this
      ensures Value() == old(Answer(Value(), k))
      ensures sentAt == if k in old(pending) then Some(old(pending)[k]) else None
    {
      if k !in pending {
        return None;
      }
      sentAt := Some(pending[k]);
      pending := pending - {k};
      failures := 0;
    }
  }

  // ------------------------------------------------------------------------ runs

  datatype Event = Tick(now: int) | Pong(k: nat)

  function Step(cfg: Config, m: Monitor, ev: Event): Monitor {
    match ev
    case Tick(now) => Probe(cfg, m, now)
    case Pong(k) => Answer(m, k)
  }

  /** Ticks and pongs in any order, up to the tick that declares the stream unhealthy. */
  ghost predicate IsRun(cfg: Config, ms: seq<Monitor>, events: seq<Event>) {
    && |ms| == |events| + 1 && ms[0] == FRESH && |events| < TWO64
    && forall i :: 0 <= i < |events| ==>
         && ms[i + 1] == Step(cfg, ms[i], events[i])
         && (events[i].Tick? ==> !Unhealthy(cfg, ms[i], events[i].now))
  }

  lemma RunPrefix(cfg: Config, ms: seq<Monitor>, events: seq<Event>, n: nat)
    requires IsRun(cfg, ms, events) && n <= |events|
    ensures IsRun(cfg, ms[..n + 1], events[..n])
  {
  }

  function Ticks(events: seq<Event>): nat {
    if events == [] then 0
    else Ticks(events[..|events| - 1]) + if events[|events| - 1].Tick? then 1 else 0
  }

  lemma {:induction false} TicksBound(events: seq<Event>)
    ensures Ticks(events) <= |events|
  {
    if events != [] {
      TicksBound(events[..|events| - 1]);
    }
  }

  lemma {:induction false} TicksMonotone(events: seq<Event>, i: nat)
    requires i < |events|
    ensures Ticks(events[..i + 1]) <= Ticks(events)
    ensures Ticks(events[..i + 1]) == Ticks(events[..i]) + if events[i].Tick? then 1 else 0
  {
    assert events[..i + 1][..i] == events[..i];
    if i + 1 == |events| {
      assert events[..i + 1] == events;
    } else {
      var front := events[..|events| - 1];
      assert front[..i + 1] == events[..i + 1] && front[..i] == events[..i];
      TicksMonotone(front, i);
    }
  }

  /** Pings are numbered by the ticks that send them. */
  lemma {:induction false} SeqCountsTicks(cfg: Config, ms: seq<Monitor>, events: seq<Event>)
    requires IsRun(cfg, ms, events)
    ensures ms[|events|].nextSeq == Ticks(events)
    ensures forall k :: k in ms[|events|].pending ==> 1 <= k <= Ticks(events)
  {
    if events != [] {
      var n := |events| - 1;
      RunPrefix(cfg, ms, events, n);
      SeqCountsTicks(cfg, ms[..n + 1], events[..n]);
      TicksBound(events);
    }
  }

  /** Event `i` sends ping `k`. */
  ghost predicate Sends(events: seq<Event>, i: nat, k: nat) {
    i < |events| && events[i].Tick? && Ticks(events[..i]) + 1 == k
  }

  /** No pong for `k` after `i`, and no tick that finds it late. */
  ghost predicate Outstanding(cfg: Config, events: seq<Event>, i: nat, k: nat) {
    i < |events| && events[i].Tick? &&
    forall j :: i < j < |events| ==>
      events[j] != Pong(k) && !(events[j].Tick? && events[j].now - events[i].now >= cfg.timeout)
  }

  lemma PendingStep(cfg: Config, m: Monitor, ev: Event, k: nat)
    requires k <= m.nextSeq < TWO64 - 1 && (ev.Tick? ==> k != 0)
    ensures k in Step(cfg, m, ev).pending <==>
      k in m.pending && ev != Pong(k) && !(ev.Tick? && ev.now - m.pending[k] >= cfg.timeout)
    ensures k in Step(cfg, m, ev).pending ==> Step(cfg, m, ev).pending[k] == m.pending[k]
  {
  }

  /** What is pending, from the history alone. */
  lemma {:induction false} PendingExact(cfg: Config, ms: seq<Monitor>, events: seq<Event>, i: nat, k: nat)
    requires IsRun(cfg, ms, events) && Sends(events, i, k)
    ensures k in ms[|events|].pending <==> Outstanding(cfg, events, i, k)
    ensures k in ms[|events|].pending ==> ms[|events|].pending[k] == events[i].now
  {
    var n := |events| - 1;
    RunPrefix(cfg, ms, events, n);
    var front := events[..n];
    SeqCountsTicks(cfg, ms[..n + 1], front);
    TicksBound(front);
    if i < n {
      assert front[..i] == events[..i];
      PendingExact(cfg, ms[..n + 1], front, i, k);
      TicksMonotone(front, i);
      hide Ticks, Step;
      assert ms[n + 1] == Step(cfg, ms[n], events[n]);
      PendingStep(cfg, ms[n], events[n], k);
      OutstandingStep(cfg, events, i, k);
    }
  }

  lemma OutstandingStep(cfg: Config, events: seq<Event>, i: nat, k: nat)
    requires i < |events| - 1
    ensures var n := |events| - 1;
            Outstanding(cfg, events, i, k) <==>
              && Outstanding(cfg, events[..n], i, k) && events[n] != Pong(k)
              && !(events[n].Tick? && events[n].now - events[i].now >= cfg.timeout)
  {
    var front := events[..|events| - 1];
    assert forall j :: 0 <= j < |front| ==> front[j] == events[j];
    if Outstanding(cfg, events, i, k) {
      assert Outstanding(cfg, front, i, k);
    }
  }

  lemma {:induction false} SenderExists(events: seq<Event>, k: nat) returns (i: nat)
    requires 1 <= k <= Ticks(events)
    ensures Sends(events, i, k)
  {
    var n := |events| - 1;
    if k <= Ticks(events[..n]) {
      i := SenderExists(events[..n], k);
      assert events[..n][..i] == events[..i];
    } else {
      i := n;
    }
  }

  // ------------------------------------------------------------------ accounting

  /** Pings answered over the run. */
  function Answered(ms: seq<Monitor>, events: seq<Event>): nat
    requires |ms| == |events| + 1
  {
    if events == [] then 0
    else
      var n := |events| - 1;
      Answered(ms[..n + 1], events[..n]) + if events[n].Pong? && events[n].k in ms[n].pending then 1 else 0
  }

  /** Pings expired over the run. */
  function Expired(cfg: Config, ms: seq<Monitor>, events: seq<Event>): nat
    requires |ms| == |events| + 1
  {
    if events == [] then 0
    else
      var n := |events| - 1;
      Expired(cfg, ms[..n + 1], events[..n])
      + if events[n].Tick? then |Late(ms[n].pending, events[n].now, cfg.timeout)| else 0
  }

  /** Pings expired since the last pong that matched one. */
  function ExpiredSince(cfg: Config, ms: seq<Monitor>, events: seq<Event>): nat
    requires |ms| == |events| + 1
  {
    if events == [] then 0
    else
      var n := |events| - 1;
      match events[n]
      case Tick(now) => ExpiredSince(cfg, ms[..n + 1], events[..n]) + |Late(ms[n].pending, now, cfg.timeout)|
      case Pong(k) => if k in ms[n].pending then 0 else ExpiredSince(cfg, ms[..n + 1], events[..n])
  }

  lemma RemoveSize(m: map<nat, int>, gone: set<nat>)
    requires gone <= m.Keys
    ensures |m - gone| == |m| - |gone|
  {
    assert (m - gone).Keys == m.Keys - gone;
    assert |m.Keys - gone| == |m.Keys| - |gone|;
  }

  lemma ProbeSizes(cfg: Config, m: Monitor, now: int)
    requires m.nextSeq < TWO64 - 1 && forall k :: k in m.pending ==> k <= m.nextSeq
    ensures var late := Late(m.pending, now, cfg.timeout);
            && |Probe(cfg, m, now).pending| == |m.pending| - |late| + 1
            && Probe(cfg, m, now).failures == m.failures + |late|
  {
    var late := Late(m.pending, now, cfg.timeout);
    RemoveSize(m.pending, late);
    var rest := m.pending - late;
    assert rest[m.nextSeq + 1 := now].Keys == rest.Keys + {m.nextSeq + 1};
  }

  lemma AnswerSizes(m: Monitor, k: nat)
    ensures |Answer(m, k).pending| == |m.pending| - if k in m.pending then 1 else 0
  {
    if k in m.pending {
      RemoveSize(m.pending, {k});
    }
  }

  /** In every run, each ping sent is pending, answered or expired, and the failure count is the
      number expired since the last matched pong. */
  lemma {:induction false} PingAccounting(cfg: Config, ms: seq<Monitor>, events: seq<Event>)
    requires IsRun(cfg, ms, events)
    ensures Ticks(events) == |ms[|events|].pending| + Answered(ms, events) + Expired(cfg, ms, events)
    ensures ms[|events|].failures == ExpiredSince(cfg, ms, events)
  {
    if events != [] {
      var n := |events| - 1;
      RunPrefix(cfg, ms, events, n);
      PingAccounting(cfg, ms[..n + 1], events[..n]);
      SeqCountsTicks(cfg, ms[..n + 1], events[..n]);
      TicksBound(events[..n]);
      assert ms[n + 1] == Step(cfg, ms[n], events[n]);
      hide Probe, Late;
      match events[n]
      case Tick(now) => ProbeSizes(cfg, ms[n], now);
      case Pong(k) => AnswerSizes(ms[n], k);
    }
  }

  // ---------------------------------------------------------- no false alarm

  /** Every ping that a tick could find late has had its pong by then. */
  ghost predicate AnsweredInTime(cfg: Config, events: seq<Event>) {
    forall i, j, k: nat :: 0 <= i < j < |events| && Sends(events, i, k) && events[j].Tick?
                           && events[j].now - events[i].now >= cfg.timeout
      ==> exists p :: i < p < j && events[p] == Pong(k)
  }

  lemma {:induction false} NoFailures(cfg: Config, ms: seq<Monitor>, events: seq<Event>, n: nat)
    requires IsRun(cfg, ms, events) && AnsweredInTime(cfg, events) && n <= |events|
    ensures ms[n].failures == 0
  {
    hide Ticks;
    if n > 0 {
      NoFailures(cfg, ms, events, n - 1);
      assert ms[n] == Step(cfg, ms[n - 1], events[n - 1]);
      if events[n - 1].Tick? {
        RunPrefix(cfg, ms, events, n - 1);
        NothingLate(cfg, ms[..n], events[..n - 1], events[n - 1].now) by {
          AnsweredPrefix(cfg, events, n);
          assert events[..n] == events[..n - 1] + [Tick(events[n - 1].now)];
        }
      }
    }
  }

  lemma AnsweredPrefix(cfg: Config, events: seq<Event>, n: nat)
    requires AnsweredInTime(cfg, events) && n <= |events|
    ensures AnsweredInTime(cfg, events[..n])
  {
    hide Ticks;
    var front := events[..n];
    forall i: nat, j: nat, k: nat | i < j < |front| && Sends(front, i, k) && front[j].Tick?
                                     && front[j].now - front[i].now >= cfg.timeout
      ensures exists p :: i < p < j && front[p] == Pong(k)
    {
      assert front[..i] == events[..i];
      assert Sends(events, i, k);
      var p :| i < p < j && events[p] == Pong(k);
      assert front[p] == Pong(k);
    }
  }

  lemma LateIsAnswered(cfg: Config, events: seq<Event>, now: int, i: nat, k: nat)
    requires AnsweredInTime(cfg, events + [Tick(now)]) && Sends(events, i, k)
    requires now - events[i].now >= cfg.timeout
    ensures !Outstanding(cfg, events, i, k)
  {
    hide Ticks;
    var all := events + [Tick(now)];
    assert all[..i] == events[..i] && all[i] == events[i];
    assert Sends(all, i, k) && all[|events|] == Tick(now);
    var p :| i < p < |events| && all[p] == Pong(k);
    assert events[p] == Pong(k);
  }

  lemma NothingLate(cfg: Config, ms: seq<Monitor>, events: seq<Event>, now: int)
    requires IsRun(cfg, ms, events) && AnsweredInTime(cfg, events + [Tick(now)])
    ensures Late(ms[|events|].pending, now, cfg.timeout) == {}
  {
    hide Ticks, AnsweredInTime;
    if k :| k in Late(ms[|events|].pending, now, cfg.timeout) {
      SeqCountsTicks(cfg, ms, events);
      var i := SenderExists(events, k);
      PendingExact(cfg, ms, events, i, k);
      LateIsAnswered(cfg, events, now, i, k);
    }
  }

  /** No run whose pings are all answered before they expire goes unhealthy. */
  lemma NoFalseAlarm(cfg: Config, ms: seq<Monitor>, events: seq<Event>, now: int)
    requires cfg.Valid() && IsRun(cfg, ms, events) && AnsweredInTime(cfg, events + [Tick(now)])
    ensures !Unhealthy(cfg, ms[|events|], now)
  {
    AnsweredPrefix(cfg, events + [Tick(now)], |events|);
    assert (events + [Tick(now)])[..|events|] == events;
    NoFailures(cfg, ms, events, |events|);
    NothingLate(cfg, ms, events, now);
  }

  // ------------------------------------------------------------- detection bound

  /** Timeout over interval, rounded up. */
  function Window(cfg: Config): nat
    requires cfg.Valid()
  {
    (cfg.timeout + cfg.interval - 1) / cfg.interval
  }

  lemma MulMonotone(x: nat, a: int, b: int)
    requires a <= b
    ensures x * a <= x * b
  {
  }

  lemma WindowCovers(cfg: Config, d: int)
    requires cfg.Valid()
    ensures cfg.interval * d >= cfg.timeout <==> d >= Window(cfg)
  {
    var x, w := cfg.interval, Window(cfg);
    RoundUp(x, cfg.timeout);
    if d >= w {
      MulMonotone(x, w, d);
    } else {
      MulMonotone(x, d, w - 1);
    }
  }

  lemma RoundUp(x: int, t: int)
    requires x > 0
    ensures var w := (t + x - 1) / x; x * w >= t > x * (w - 1)
  {
    var q := t + x - 1;
    assert q == x * (q / x) + q % x;
    assert x * (q / x - 1) == x * (q / x) - x;
  }

  /** From event `a` on no pong matches a ping. */
  ghost predicate Quiet(ms: seq<Monitor>, events: seq<Event>, a: nat)
    requires |ms| == |events| + 1
  {
    forall j :: a <= j < |events| && events[j].Pong? ==> events[j].k !in ms[j].pending
  }

  /** Time does not run backwards, and from event `a` on ticks are at least an interval apart. */
  ghost predicate Regular(cfg: Config, events: seq<Event>, a: nat) {
    forall i, j :: 0 <= i < j < |events| && events[i].Tick? && events[j].Tick? ==>
      events[i].now + (if a <= i then cfg.interval else 0) <= events[j].now
  }

  lemma {:induction false} QuietCount(cfg: Config, ms: seq<Monitor>, events: seq<Event>, a: nat)
    requires IsRun(cfg, ms, events) && a <= |events| && Quiet(ms, events, a)
    ensures ms[|events|].failures + |ms[|events|].pending|
         >= Ticks(events) - Ticks(events[..a])
  {
    if a == |events| {
      assert events[..a] == events;
    } else {
      var n := |events| - 1;
      RunPrefix(cfg, ms, events, n);
      assert events[..n][..a] == events[..a];
      QuietCount(cfg, ms[..n + 1], events[..n], a);
      SeqCountsTicks(cfg, ms[..n + 1], events[..n]);
      TicksBound(events[..n]);
      assert ms[n + 1] == Step(cfg, ms[n], events[n]);
      hide Probe, Late;
      if events[n].Tick? {
        ProbeSizes(cfg, ms[n], events[n].now);
      }
    }
  }

  lemma {:induction false} FewFailures(cfg: Config, ms: seq<Monitor>, events: seq<Event>, n: nat)
    requires cfg.Valid() && IsRun(cfg, ms, events) && n <= |events|
    ensures ms[n].failures < cfg.failures
  {
    if n > 0 {
      FewFailures(cfg, ms, events, n - 1);
      assert ms[n] == Step(cfg, ms[n - 1], events[n - 1]);
    }
  }

  /** The last tick of events[lo..j], or `j` when there is none. */
  lemma {:induction false} LastTick(events: seq<Event>, lo: nat, j: nat) returns (k: nat)
    requires lo <= j <= |events|
    ensures lo <= k <= j
    ensures k == j ==> Ticks(events[..j]) == Ticks(events[..lo])
    ensures k < j ==> events[k].Tick? && Ticks(events[..j]) == Ticks(events[..k]) + 1
    decreases j
  {
    if lo == j {
      k := j;
    } else {
      TicksMonotone(events, j - 1);
      if events[j - 1].Tick? {
        k := j - 1;
      } else {
        k := LastTick(events, lo, j - 1);
        k := if k == j - 1 then j else k;
      }
    }
  }

  /** Ticks after `a` add up: between two of them lies an interval for each tick. */
  lemma {:induction false} Gap(cfg: Config, events: seq<Event>, a: nat, i: nat, j: nat)
    requires cfg.Valid() && Regular(cfg, events, a)
    requires i < j < |events| && events[i].Tick? && events[j].Tick? && a <= j
    ensures events[j].now - events[i].now
         >= cfg.interval * (Ticks(events[..j]) - Max(Ticks(events[..i]), Ticks(events[..a])))
    decreases j
  {
    hide Ticks;
    TicksMonotone(events, i);
    var from := Max(Ticks(events[..i]), Ticks(events[..a]));
    var k := LastTick(events, if a <= i then i + 1 else a, j);
    if k < j {
      Gap(cfg, events, a, i, k);
      assert cfg.interval * (Ticks(events[..k]) + 1 - from) == cfg.interval * (Ticks(events[..k]) - from) + cfg.interval;
    } else if a <= i {
      assert Ticks(events[..j]) - from <= 1;
      assert cfg.interval * (Ticks(events[..j]) - from) <= cfg.interval;
    } else {
      assert cfg.interval * (Ticks(events[..j]) - from) <= 0;
    }
  }

  lemma {:induction false} RangeSize(s: set<nat>, lo: int, n: nat)
    requires forall k :: k in s ==> lo < k <= lo + n
    ensures |s| <= n
  {
    if n == 0 {
      assert s == {};
    } else {
      RangeSize(s - {lo + n}, lo, n - 1);
    }
  }

  /** Once enough quiet ticks have passed, only the newest pings can be pending. */
  lemma PendingRecent(cfg: Config, ms: seq<Monitor>, events: seq<Event>, a: nat, k: nat)
    requires cfg.Valid() && IsRun(cfg, ms, events) && Regular(cfg, events, a) && a <= |events|
    requires Ticks(events) - Ticks(events[..a]) > Window(cfg) && k in ms[|events|].pending
    ensures Ticks(events) - Window(cfg) < k <= Ticks(events)
  {
    hide Ticks;
    SeqCountsTicks(cfg, ms, events);
    var i := SenderExists(events, k);
    PendingExact(cfg, ms, events, i, k);
    hide IsRun;
    OutstandingRecent(cfg, events, a, i, k);
  }

  lemma OutstandingRecent(cfg: Config, events: seq<Event>, a: nat, i: nat, k: nat)
    requires cfg.Valid() && Regular(cfg, events, a) && a <= |events|
    requires Ticks(events) - Ticks(events[..a]) > Window(cfg)
    requires Sends(events, i, k) && Outstanding(cfg, events, i, k)
    ensures Ticks(events) - Window(cfg) < k
  {
    hide Ticks, Window, Regular;
    assert events[..|events|] == events;
    var last := LastTick(events, a, |events|);
    if i < last {
      Gap(cfg, events, a, i, last);
      WindowCovers(cfg, Ticks(events[..last]) - Max(Ticks(events[..i]), Ticks(events[..a])));
    } else if last < i {
      AfterLast(events, last, i);
    } else {
      WindowCovers(cfg, 0);
    }
  }

  lemma AfterLast(events: seq<Event>, last: nat, i: nat)
    requires last < i < |events| && events[i].Tick? && events[last].Tick?
    ensures Ticks(events) > Ticks(events[..last]) + 1
  {
    TicksMonotone(events, i);
    TicksMonotone(events[..i], last);
    assert events[..i][..last + 1] == events[..last + 1] && events[..i][..last] == events[..last];
  }

  /** With regular ticks and no further matched pong, unhealthy is declared within Window + Failures
      ticks: no run stays healthy through that many. */
  lemma DetectionBound(cfg: Config, ms: seq<Monitor>, events: seq<Event>, a: nat)
    requires cfg.Valid() && IsRun(cfg, ms, events) && a <= |events|
    requires Quiet(ms, events, a) && Regular(cfg, events, a)
    ensures Ticks(events) - Ticks(events[..a]) < Window(cfg) + cfg.failures
  {
    var m := ms[|events|];
    if Ticks(events) - Ticks(events[..a]) >= Window(cfg) + cfg.failures {
      QuietCount(cfg, ms, events, a);
      FewFailures(cfg, ms, events, |events|);
      hide Ticks, IsRun;
      forall k | k in m.pending ensures Ticks(events) - Window(cfg) < k <= Ticks(events) {
        PendingRecent(cfg, ms, events, a, k);
      }
      RangeSize(m.pending.Keys, Ticks(events) - Window(cfg), Window(cfg));
    }
  }

  // The bound is met with equality by a peer that never answers.

  /** When ping `k` is sent, with a tick at every multiple of the interval. */
  function SentAt(cfg: Config, k: nat): int {
    cfg.interval * (k - 1)
  }

  predicate Young(cfg: Config, n: nat, k: nat)
    requires cfg.Valid()
  {
    n - k < Window(cfg)
  }

  /** The monitor after `n` ticks at multiples of the interval, with no pong. */
  function Silent(cfg: Config, n: nat): Monitor
    requires cfg.Valid()
  {
    Monitor(map k: nat | 1 <= k <= n && Young(cfg, n, k) :: SentAt(cfg, k), n, Max(0, n - Window(cfg)))
  }

  lemma SilentLate(cfg: Config, n: nat)
    requires cfg.Valid()
    ensures Late(Silent(cfg, n).pending, cfg.interval * n, cfg.timeout)
         == if n >= Window(cfg) then {n + 1 - Window(cfg)} else {}
  {
    forall k: nat | 1 <= k <= n
      ensures cfg.interval * n - SentAt(cfg, k) >= cfg.timeout <==> n - (k - 1) >= Window(cfg)
    {
      WindowCovers(cfg, n - (k - 1));
      assert cfg.interval * n - cfg.interval * (k - 1) == cfg.interval * (n - (k - 1));
    }
    WindowCovers(cfg, 0);
  }

  lemma SilentTick(cfg: Config, n: nat)
    requires cfg.Valid() && n + 1 < TWO64
    ensures Step(cfg, Silent(cfg, n), Tick(cfg.interval * n)) == Silent(cfg, n + 1)
    ensures Unhealthy(cfg, Silent(cfg, n), cfg.interval * n) <==> n + 1 >= Window(cfg) + cfg.failures
  {
    SilentLate(cfg, n);
    var m, m' := Step(cfg, Silent(cfg, n), Tick(cfg.interval * n)), Silent(cfg, n + 1);
    assert m.pending.Keys == m'.pending.Keys;
    assert m.pending == m'.pending;
  }

  /** A silent peer is declared dead at tick Window + Failures and at none before. */
  lemma SilentPeerDetectedExactly(cfg: Config, n: nat)
    requires cfg.Valid() && n + 1 < TWO64 && n < Window(cfg) + cfg.failures
    ensures IsRun(cfg, seq(n + 1, i requires 0 <= i => Silent(cfg, i)), seq(n, i => Tick(cfg.interval * i)))
    ensures Unhealthy(cfg, Silent(cfg, n), cfg.interval * n) <==> n + 1 == Window(cfg) + cfg.failures
  {
    forall i: nat | i <= n
      ensures Step(cfg, Silent(cfg, i), Tick(cfg.interval * i)) == Silent(cfg, i + 1)
      ensures Unhealthy(cfg, Silent(cfg, i), cfg.interval * i) <==> i + 1 >= Window(cfg) + cfg.failures
    {
      SilentTick(cfg, i);
    }
    assert Silent(cfg, 0).pending == map[];
  }
}
