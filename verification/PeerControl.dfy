/** The control plane of peer sessions on top of the peer table: peerControlFor looks a session up,
    then starts its control KCP under the session's own lock. A close in between is missed. */
module PeerControl {
  import opened Bytes
  import opened PeerTable
  import opened PeerRace

  /** `holding` maps a goroutine between the lookup and the lock to the session it got, `control` a
      session to its control KCP. `owner` and `late` record of every control KCP started which
      session it is for and whether that session had been closed by then; `closed` are those that
      were closed. */
  datatype Plane = Plane(
    base: State, holding: map<nat, nat>, control: map<nat, nat>,
    owner: map<nat, nat>, late: set<nat>, closed: set<nat>)

  /** A step of the peer table, where `wanted` says that the caller wants the control plane of what
      is returned; or the second half of peerControlFor, in which starting a KCP may fail. */
  datatype Action = Table(ev: Event, wanted: bool) | StartControl(t: nat, ok: bool, k: nat)

  /** The sessions that a step of the table closes. */
  ghost function ClosedNow(st: State, st': State): set<nat> {
    set s | s in st.closes && s in st'.closes && st'.closes[s] > st.closes[s]
  }

  ghost predicate CanAct(p: Plane, a: Action) {
    match a
    case Table(ev, _) => ev.t !in p.holding && Enabled(p.base, ev)
    case StartControl(t, ok, k) => t in p.holding && k !in p.owner
  }

  ghost function Act(p: Plane, a: Action): Plane
    requires CanAct(p, a)
  {
    match a
    case Table(ev, wanted) =>
      var base := Step(p.base, ev);
      var gone := ClosedNow(p.base, base);
      p.(base := base, control := p.control - gone,
         closed := p.closed + (set s | s in gone && s in p.control :: p.control[s]),
         holding := if wanted && Returned(p.base, ev).Some? then p.holding[ev.t := Returned(p.base, ev).value.1]
                    else p.holding)
    case StartControl(t, ok, k) =>
      var s := p.holding[t];
      var p' := p.(holding := p.holding - {t});
      if s in p.control || !ok then p'
      else p'.(control := p.control[s := k], owner := p.owner[k := s],
               late := if IsClosed(p.base, s) then p.late + {k} else p.late)
  }

  ghost predicate IsClosed(st: State, s: nat) {
    s in st.closes && st.closes[s] > 0
  }

  ghost predicate IsRun(ps: seq<Plane>, acts: seq<Action>) {
    && |ps| == |acts| + 1
    && (exists threads :: ps[0] == Plane(Start(threads), map[], map[], map[], {}, {}))
    && forall i :: 0 <= i < |acts| ==> CanAct(ps[i], acts[i]) && ps[i + 1] == Act(ps[i], acts[i])
  }

  /** A control KCP that nothing will close: it runs although its session has been closed. */
  ghost predicate Leaked(p: Plane, k: nat) {
    k in p.owner && k !in p.closed && IsClosed(p.base, p.owner[k])
  }

  // ------------------------------------------------------------------ invariants

  ghost predicate HandlesOk(control: map<nat, nat>, owner: map<nat, nat>, closed: set<nat>, late: set<nat>) {
    && (forall s :: s in control ==> control[s] in owner && owner[control[s]] == s && control[s] !in closed)
    && (forall k :: k in owner && k !in closed ==> owner[k] in control && control[owner[k]] == k)
    && late <= owner.Keys && closed <= owner.Keys && late !! closed
  }

  ghost predicate LateOk(st: State, owner: map<nat, nat>, closed: set<nat>, late: set<nat>) {
    forall k :: k in owner ==>
      && owner[k] in st.closes
      && (k in late ==> IsClosed(st, owner[k]))
      && (k !in late && IsClosed(st, owner[k]) ==> k in closed)
  }

  ghost predicate PlaneInv(p: Plane) {
    && Inv(p.base)
    && HandlesOk(p.control, p.owner, p.closed, p.late)
    && LateOk(p.base, p.owner, p.closed, p.late)
    && forall t :: t in p.holding ==> p.holding[t] in p.base.closes
  }

  /** The table closes a session at most once. */
  lemma ClosesStep(st: State, ev: Event, s: nat)
    requires Inv(st) && Enabled(st, ev) && s in st.closes
    ensures s in Step(st, ev).closes && st.closes[s] <= Step(st, ev).closes[s] <= 1
  {
    StepKeeps(st, ev);
    ClosesBelowTwo(Step(st, ev), s);
    ClosesGrow(st, ev, s);
  }

  lemma ClosesGrow(st: State, ev: Event, s: nat)
    requires Inv(st) && Enabled(st, ev) && s in st.closes
    ensures s in Step(st, ev).closes && st.closes[s] <= Step(st, ev).closes[s]
  {
    hide Placed, LockInv, NewestInv, TableInv, HoldInv, Stale, Touched, Ids;
  }

  lemma ClosesBelowTwo(st: State, s: nat)
    requires Inv(st)
    ensures s in st.closes ==> st.closes[s] <= 1
  {
    hide LockInv, NewestInv;
    if s in st.closes {
      assert Placed(Installs(st.table), st.threads, st.epochOf, st.closes, st.place, s);
    }
  }

  /** Closing sessions takes their control KCPs along. */
  lemma HandlesClose(control: map<nat, nat>, owner: map<nat, nat>, closed: set<nat>, late: set<nat>, gone: set<nat>)
    requires HandlesOk(control, owner, closed, late)
    requires forall s :: s in gone && s in control ==> control[s] !in late
    ensures HandlesOk(control - gone, owner, closed + (set s | s in gone && s in control :: control[s]), late)
  {
    var closed' := closed + (set s | s in gone && s in control :: control[s]);
    forall s | s in control - gone ensures control[s] !in closed' {
      assert owner[control[s]] == s;
    }
  }

  lemma LateClose(st: State, st': State, control: map<nat, nat>, owner: map<nat, nat>, closed: set<nat>, late: set<nat>)
    requires HandlesOk(control, owner, closed, late) && LateOk(st, owner, closed, late)
    requires forall s :: s in st.closes ==> s in st'.closes && st.closes[s] <= st'.closes[s] <= 1
    ensures var gone := ClosedNow(st, st');
            && (forall s :: s in gone && s in control ==> control[s] !in late)
            && LateOk(st', owner, closed + (set s | s in gone && s in control :: control[s]), late)
  {
    var gone := ClosedNow(st, st');
    var closed' := closed + (set s | s in gone && s in control :: control[s]);
    forall k | k in owner && k !in late && IsClosed(st', owner[k]) ensures k in closed' {
      if k !in closed {
        assert owner[k] in gone && control[owner[k]] == k;
      }
    }
  }

  lemma TableKeeps(p: Plane, ev: Event, wanted: bool)
    requires PlaneInv(p) && CanAct(p, Table(ev, wanted))
    ensures PlaneInv(Act(p, Table(ev, wanted)))
  {
    hide HandlesOk, LateOk, Inv, Step, Enabled, Returned;
    var base := Step(p.base, ev);
    StepKeeps(p.base, ev);
    forall s | s in p.base.closes ensures s in base.closes && p.base.closes[s] <= base.closes[s] <= 1 {
      ClosesStep(p.base, ev, s);
    }
    LateClose(p.base, base, p.control, p.owner, p.closed, p.late);
    HandlesClose(p.control, p.owner, p.closed, p.late, ClosedNow(p.base, base));
    if Returned(p.base, ev).Some? {
      LookupFindsOpen(p.base, ev, Returned(p.base, ev).value.0, Returned(p.base, ev).value.1);
    }
  }

  /** A lookup returns a session that has not been closed. */
  lemma LookupFindsOpen(st: State, ev: Event, e: U32, s: nat)
    requires Inv(st) && Enabled(st, ev) && Returned(st, ev) == Some((e, s))
    ensures s in Step(st, ev).closes && !IsClosed(Step(st, ev), s)
  {
    hide Step, Enabled, Returned;
    StepKeeps(st, ev);
    ReturnsInstalled(st, ev, e, s);
    InstalledOpen(Step(st, ev), e, s);
  }

  lemma InstalledOpen(st: State, e: U32, s: nat)
    requires Inv(st) && Has(st, e, s)
    ensures s in st.closes && !IsClosed(st, s)
  {
    hide LockInv, NewestInv;
    assert Installs(st.table)[e] == s;
    assert Placed(Installs(st.table), st.threads, st.epochOf, st.closes, st.place, s);
  }

  lemma StartControlKeeps(p: Plane, t: nat, ok: bool, k: nat)
    requires PlaneInv(p) && CanAct(p, StartControl(t, ok, k))
    ensures PlaneInv(Act(p, StartControl(t, ok, k)))
  {
    hide Inv;
    var s := p.holding[t];
    if s !in p.control && ok {
      StartHandles(p.control, p.owner, p.closed, p.late, s, k, IsClosed(p.base, s));
      StartLate(p.base, p.owner, p.closed, p.late, s, k);
    }
  }

  lemma StartHandles(
    control: map<nat, nat>, owner: map<nat, nat>, closed: set<nat>, late: set<nat>, s: nat, k: nat, isLate: bool)
    requires HandlesOk(control, owner, closed, late) && s !in control && k !in owner
    ensures HandlesOk(control[s := k], owner[k := s], closed, if isLate then late + {k} else late)
  {
  }

  lemma StartLate(st: State, owner: map<nat, nat>, closed: set<nat>, late: set<nat>, s: nat, k: nat)
    requires LateOk(st, owner, closed, late) && k !in owner && late <= owner.Keys && s in st.closes
    ensures LateOk(st, owner[k := s], closed, if IsClosed(st, s) then late + {k} else late)
  {
  }

  lemma {:induction false} PlaneRunInv(ps: seq<Plane>, acts: seq<Action>, n: nat)
    requires IsRun(ps, acts) && n <= |acts|
    ensures PlaneInv(ps[n])
  {
    hide PlaneInv, Act, CanAct;
    if n == 0 {
      var threads :| ps[0] == Plane(Start(threads), map[], map[], map[], {}, {});
      StartInv(threads);
      FreshPlane(threads);
    } else {
      PlaneRunInv(ps, acts, n - 1);
      match acts[n - 1]
      case Table(ev, wanted) => TableKeeps(ps[n - 1], ev, wanted);
      case StartControl(t, ok, k) => StartControlKeeps(ps[n - 1], t, ok, k);
    }
  }

  lemma FreshPlane(threads: set<nat>)
    requires Inv(Start(threads))
    ensures PlaneInv(Plane(Start(threads), map[], map[], map[], {}, {}))
  {
  }

  lemma RecordStep(p: Plane, a: Action, k: nat)
    requires CanAct(p, a) && k in p.owner
    ensures var p' := Act(p, a);
            k in p'.owner && p'.owner[k] == p.owner[k] && (k in p'.late <==> k in p.late)
  {
    hide Step, Enabled, Returned, ClosedNow;
  }

  /** What is recorded of a control KCP does not change. */
  lemma {:induction false} RecordKept(ps: seq<Plane>, acts: seq<Action>, i: nat, n: nat, k: nat)
    requires IsRun(ps, acts) && i <= n <= |acts| && k in ps[i].owner
    ensures k in ps[n].owner && ps[n].owner[k] == ps[i].owner[k] && (k in ps[n].late <==> k in ps[i].late)
    decreases n
  {
    hide Act, CanAct;
    if i < n {
      RecordKept(ps, acts, i, n - 1, k);
      RecordStep(ps[n - 1], acts[n - 1], k);
    }
  }

  lemma HoldingStep(p: Plane, a: Action, t: nat)
    requires PlaneInv(p) && CanAct(p, a) && t in Act(p, a).holding
    ensures var p' := Act(p, a);
            || (t in p.holding && p'.holding[t] == p.holding[t])
            || (a.Table? && a.ev.t == t && !IsClosed(p'.base, p'.holding[t]))
  {
    hide Step, Enabled, Returned, ClosedNow, HandlesOk, LateOk, Inv;
    if a.Table? && a.wanted && Returned(p.base, a.ev).Some? {
      LookupFindsOpen(p.base, a.ev, Returned(p.base, a.ev).value.0, Returned(p.base, a.ev).value.1);
    }
  }

  /** The lookup that a goroutine holds its session from; the session was open then. */
  lemma {:induction false} HeldSince(ps: seq<Plane>, acts: seq<Action>, i: nat, t: nat) returns (j: nat)
    requires IsRun(ps, acts) && i <= |acts| && t in ps[i].holding
    ensures j < i && acts[j].Table? && acts[j].ev.t == t
    ensures t in ps[j + 1].holding && ps[j + 1].holding[t] == ps[i].holding[t]
    ensures !IsClosed(ps[j + 1].base, ps[i].holding[t])
  {
    hide Act, CanAct, PlaneInv;
    if i == 0 {
      assert false;
    } else {
      PlaneRunInv(ps, acts, i - 1);
      HoldingStep(ps[i - 1], acts[i - 1], t);
      if t in ps[i - 1].holding && ps[i - 1].holding[t] == ps[i].holding[t] {
        j := HeldSince(ps, acts, i - 1, t);
      } else {
        j := i - 1;
      }
    }
  }

  /** In every interleaving, once a session has been closed its control KCP is closed too, unless it
      was started after that close: a control KCP leaks if and only if its session was closed
      before the lock was taken. Since a lookup finds only open sessions, that is a close between
      the lookup and the lock. */
  lemma ControlLeaksIffClosedBefore(ps: seq<Plane>, acts: seq<Action>, i: nat, n: nat)
    requires IsRun(ps, acts) && i < n <= |acts|
    requires acts[i].StartControl? && acts[i].k in ps[i + 1].owner
    ensures acts[i].t in ps[i].holding
    ensures var k, s := acts[i].k, ps[i].holding[acts[i].t];
            IsClosed(ps[n].base, s) ==> (Leaked(ps[n], k) <==> IsClosed(ps[i].base, s))
  {
    var StartControl(t, ok, k) := acts[i];
    PlaneRunInv(ps, acts, i);
    PlaneRunInv(ps, acts, n);
    assert CanAct(ps[i], acts[i]) && ps[i + 1] == Act(ps[i], acts[i]);
    RecordKept(ps, acts, i + 1, n, k);
    hide Inv, IsRun, Act;
    StartedAs(ps[i], t, ok, k);
  }

  lemma StartedAs(p: Plane, t: nat, ok: bool, k: nat)
    requires PlaneInv(p) && CanAct(p, StartControl(t, ok, k)) && k in Act(p, StartControl(t, ok, k)).owner
    ensures var p' := Act(p, StartControl(t, ok, k));
            p'.owner[k] == p.holding[t] && (k in p'.late <==> IsClosed(p.base, p.holding[t]))
  {
    hide Inv, LateOk;
  }

  // --------------------------------------------------- an interleaving that leaks

  ghost predicate Reachable(p: Plane) {
    exists ps: seq<Plane>, acts: seq<Action> :: IsRun(ps, acts) && ps[|acts|] == p
  }

  lemma ReachStart(threads: set<nat>)
    ensures Reachable(Plane(Start(threads), map[], map[], map[], {}, {}))
  {
    var ps, acts: seq<Action> := [Plane(Start(threads), map[], map[], map[], {}, {})], [];
    assert IsRun(ps, acts) && ps[|acts|] == ps[0];
  }

  lemma ReachAct(p: Plane, a: Action)
    requires Reachable(p) && CanAct(p, a)
    ensures Reachable(Act(p, a))
  {
    hide Act, CanAct;
    var ps: seq<Plane>, acts: seq<Action> :| IsRun(ps, acts) && ps[|acts|] == p;
    var ps', acts' := ps + [Act(p, a)], acts + [a];
    assert IsRun(ps', acts') by {
      assert ps'[0] == ps[0];
      forall i | 0 <= i < |acts'| ensures CanAct(ps'[i], acts'[i]) && ps'[i + 1] == Act(ps'[i], acts'[i]) {
        if i < |acts| {
          assert ps'[i] == ps[i] && ps'[i + 1] == ps[i + 1] && acts'[i] == acts[i];
        }
      }
    }
    assert ps'[|acts'|] == Act(p, a);
  }

  /** A step of the table that closes nothing and returns nothing. */
  lemma ReachTable(p: Plane, ev: Event, base: State)
    requires Reachable(p) && CanAct(p, Table(ev, true)) && base == Step(p.base, ev)
    requires base.closes == p.base.closes && Returned(p.base, ev) == None
    ensures Reachable(p.(base := base))
  {
    hide Reachable, Step, Enabled, Returned;
    ReachAct(p, Table(ev, true));
    assert ClosedNow(p.base, base) == {};
    assert p.control - {} == p.control;
    assert Act(p, Table(ev, true)) == p.(base := base);
  }

  function Threads(a: Thread, b: Thread): map<nat, Thread> {
    map[0 := a, 1 := b]
  }

  /** The table while goroutine 0 is on its way to build a session. */
  function Creating(th: Thread, lock: Option<nat>): State {
    State(map[], false, lock, Threads(th, Idle), map[], map[], map[])
  }

  lemma CreationSteps()
    ensures Start({0, 1}) == Creating(Idle, None)
    ensures var st := Creating(Idle, None);
            && Enabled(st, Lookup(0, 5, 0)) && Step(st, Lookup(0, 5, 0)) == Creating(Missed(5), None)
            && Returned(st, Lookup(0, 5, 0)) == None
    ensures var st := Creating(Missed(5), None);
            && Enabled(st, Lock(0)) && Step(st, Lock(0)) == Creating(Locked(5), Some(0)) && Returned(st, Lock(0)) == None
    ensures var st := Creating(Locked(5), Some(0));
            && Enabled(st, Relookup(0, 0)) && Step(st, Relookup(0, 0)) == Creating(Building(5), Some(0))
            && Returned(st, Relookup(0, 0)) == None
  {
    assert Start({0, 1}).threads == Threads(Idle, Idle);
    assert forall th: Thread :: Threads(Idle, Idle)[0 := th] == Threads(th, Idle);
    assert Threads(Missed(5), Idle)[0 := Locked(5)] == Threads(Locked(5), Idle);
    assert Threads(Locked(5), Idle)[0 := Building(5)] == Threads(Building(5), Idle);
  }

  /** Goroutine 0 wants the control plane of peer 5 and is about to build its session. */
  lemma ReachBuilding() returns (p: Plane)
    ensures Reachable(p) && p == Plane(Creating(Building(5), Some(0)), map[], map[], map[], {}, {})
  {
    hide Reachable, Step, Enabled, Returned;
    CreationSteps();
    ReachStart({0, 1});
    p := Plane(Creating(Idle, None), map[], map[], map[], {}, {});
    ReachTable(p, Lookup(0, 5, 0), Creating(Missed(5), None));
    p := p.(base := Creating(Missed(5), None));
    ReachTable(p, Lock(0), Creating(Locked(5), Some(0)));
    p := p.(base := Creating(Locked(5), Some(0)));
    ReachTable(p, Relookup(0, 0), Creating(Building(5), Some(0)));
    p := p.(base := Creating(Building(5), Some(0)));
  }

  /** Goroutine 0 has got the session and waits for its lock. */
  lemma ReachHeld() returns (p: Plane)
    ensures Reachable(p)
    ensures p == Plane(State(map[5 := Entry(0, 0)], false, None, Threads(Idle, Idle), map[0 := 5], map[0 := 0],
                             map[0 := InTable]), map[0 := 0], map[], map[], {}, {})
  {
    hide Reachable;
    p := ReachBuilding();
    var built := State(map[], false, Some(0), Threads(Built(5, 0), Idle), map[0 := 5], map[0 := 0], map[0 := HeldBy(0)]);
    assert Step(p.base, Build(0, true, 0)) == built;
    ReachAct(p, Table(Build(0, true, 0), true));
    assert ClosedNow(p.base, built) == {};
    assert Act(p, Table(Build(0, true, 0), true)) == p.(base := built);
    p := p.(base := built);
    var st := State(map[5 := Entry(0, 0)], false, None, Threads(Idle, Idle), map[0 := 5], map[0 := 0], map[0 := InTable]);
    assert Step(built, Add(0, 0, 0)) == st;
    ReachAct(p, Table(Add(0, 0, 0), true));
    assert ClosedNow(built, st) == {};
    p := Act(p, Table(Add(0, 0, 0), true));
  }

  lemma SweptThenClosed()
    ensures var st := State(map[5 := Entry(0, 0)], false, None, Threads(Idle, Idle), map[0 := 5], map[0 := 0], map[0 := InTable]);
            Enabled(st, Sweep(1, 1)) && Step(st, Sweep(1, 1)) == Swept()
    ensures Enabled(Swept(), CloseOne(1, 0)) && Step(Swept(), CloseOne(1, 0)) == SweptClosed()
  {
    var st := State(map[5 := Entry(0, 0)], false, None, Threads(Idle, Idle), map[0 := 5], map[0 := 0], map[0 := InTable]);
    assert Stale(st.table, 1) == {5};
    assert (set e | e in Stale(st.table, 1) :: st.table[e].id) == {0};
    assert st.table - {5} == map[];
    assert {0} - {0} == {};
  }

  function Swept(): State {
    State(map[], false, None, Threads(Idle, Closing({0})), map[0 := 5], map[0 := 0], map[0 := HeldBy(1)])
  }

  function SweptClosed(): State {
    State(map[], false, None, Threads(Idle, Closing({})), map[0 := 5], map[0 := 1], map[0 := Gone])
  }

  /** A sweep closes the session between the lookup and the lock, and the control KCP that is
      started then is never closed. */
  lemma SweepBetweenLeaks() returns (p: Plane)
    ensures Reachable(p) && Leaked(p, 7) && p.owner[7] == 0 && p.base.closes == map[0 := 1]
  {
    hide Reachable, Step, Enabled;
    var held := ReachHeld();
    SweptThenClosed();
    ReachTable(held, Sweep(1, 1), Swept());
    p := held.(base := Swept());
    ReachAct(p, Table(CloseOne(1, 0), false));
    ClosesWithoutControl(p);
    p := held.(base := SweptClosed());
    ReachAct(p, StartControl(0, true, 7));
    p := Act(p, StartControl(0, true, 7));
  }

  lemma ClosesWithoutControl(p: Plane)
    requires p.base == Swept() && p.control == map[] && p.closed == {} && CanAct(p, Table(CloseOne(1, 0), false))
    ensures Act(p, Table(CloseOne(1, 0), false)) == p.(base := SweptClosed())
  {
    hide Step, Enabled;
    SweptThenClosed();
    assert p.control - ClosedNow(Swept(), SweptClosed()) == map[];
    assert (set s | s in ClosedNow(Swept(), SweptClosed()) && s in p.control :: p.control[s]) == {};
  }
}
