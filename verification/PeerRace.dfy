/** Concurrent use of the peer table: any interleaving of lookups that create sessions on first
    contact, sweeps, evictions and shutdown. Each step is what one goroutine does under one lock
    or between two. */
module PeerRace {
  import opened Bytes
  import opened PeerTable

  /** Where a goroutine stands in peerSessionFor, sweep or closeAll. */
  datatype Thread =
    | Idle
    | Missed(e: U32)                        // the first lookup missed; waiting for createMu
    | Locked(e: U32)                        // holds createMu, second lookup to do
    | Building(e: U32)                      // missed again; starting a KCP session
    | Built(e: U32, s: nat)                 // about to add
    | Refused(e: U32, s: nat)               // add failed; about to close
    | Closing(left: set<nat>)               // removed from the table; closing one by one

  /** Where a session is. */
  datatype Place = InTable | HeldBy(t: nat) | Gone

  /** `epochOf`, `closes` and `place` cover every session ever built; `closes` counts the calls of
      close. */
  datatype State = State(
    table: Table, closed: bool, lock: Option<nat>, threads: map<nat, Thread>,
    epochOf: map<nat, U32>, closes: map<nat, nat>, place: map<nat, Place>)

  datatype Event =
    | Lookup(t: nat, e: U32, now: int)
    | Lock(t: nat)
    | Relookup(t: nat, now: int)
    | Build(t: nat, ok: bool, s: nat)
    | Add(t: nat, now: int, victim: U32)
    | CloseRefused(t: nat)
    | Sweep(t: nat, cutoff: int)
    | CloseAll(t: nat)
    | CloseOne(t: nat, s: nat)
    | Finish(t: nat)

  function Start(threads: set<nat>): State {
    State(map[], false, None, map t | t in threads :: Idle, map[], map[], map[])
  }

  function At(st: State, t: nat): Thread {
    if t in st.threads then st.threads[t] else Idle
  }

  function With(st: State, t: nat, th: Thread): State {
    st.(threads := st.threads[t := th])
  }

  function Unlocked(st: State, t: nat): State {
    With(st, t, Idle).(lock := None)
  }

  ghost predicate Enabled(st: State, ev: Event) {
    ev.t in st.threads &&
    var th := st.threads[ev.t];
    match ev
    case Lookup(_, _, _) => th.Idle?
    case Lock(_) => th.Missed? && st.lock == None
    case Relookup(_, _) => th.Locked?
    case Build(_, ok, s) => th.Building? && (ok ==> s !in st.epochOf && forall k :: k in st.epochOf ==> k < s)
    case Add(_, _, victim) => th.Built? && (|st.table| >= MAX_PEERS ==> LeastRecent(st.table, victim))
    case CloseRefused(_) => th.Refused?
    case Sweep(_, _) => th.Idle?
    case CloseAll(_) => th.Idle?
    case CloseOne(_, s) => th.Closing? && s in th.left
    case Finish(_) => th.Closing? && th.left == {}
  }

  /** peerSession.close, with its effect counted. */
  function Closed(st: State, s: nat): State {
    st.(closes := st.closes[s := (if s in st.closes then st.closes[s] else 0) + 1], place := st.place[s := Gone])
  }

  function Found(st: State, t: nat, e: U32, now: int): State
    requires e in st.table
  {
    With(st, t, Idle).(table := Touched(st.table, e, now))
  }

  /** The sessions of `ids` leave the table into the hands of goroutine `t`. */
  function Taken(st: State, t: nat, ids: set<nat>): State {
    With(st, t, Closing(ids)).(place := map s | s in st.place :: if s in ids then HeldBy(t) else st.place[s])
  }

  function Installed(st: State, t: nat, now: int, victim: U32): State
    requires At(st, t).Built? && (|st.table| >= MAX_PEERS ==> victim in st.table)
  {
    var Built(e, s) := At(st, t);
    var st1 := if |st.table| >= MAX_PEERS
               then Closed(st, st.table[victim].id).(table := st.table - {victim}) else st;
    Unlocked(st1, t).(table := st1.table[e := Entry(s, now)], place := st1.place[s := InTable])
  }

  ghost function Step(st: State, ev: Event): State
    requires Enabled(st, ev)
  {
    var th := st.threads[ev.t];
    match ev
    case Lookup(t, e, now) => if e in st.table then Found(st, t, e, now) else With(st, t, Missed(e))
    case Lock(t) => With(st, t, Locked(th.e)).(lock := Some(t))
    case Relookup(t, now) =>
      if th.e in st.table then Found(st, t, th.e, now).(lock := None) else With(st, t, Building(th.e))
    case Build(t, ok, s) =>
      if !ok then Unlocked(st, t)
      else With(st, t, Built(th.e, s)).(epochOf := st.epochOf[s := th.e], closes := st.closes[s := 0],
                                        place := st.place[s := HeldBy(t)])
    case Add(t, now, victim) =>
      if st.closed || th.e in st.table then With(st, t, Refused(th.e, th.s)) else Installed(st, t, now, victim)
    case CloseRefused(t) => Unlocked(Closed(st, th.s), t)
    case Sweep(t, cutoff) =>
      var gone := Stale(st.table, cutoff);
      Taken(st.(table := st.table - gone), t, set e | e in gone :: st.table[e].id)
    case CloseAll(t) => Taken(st.(table := map[], closed := true), t, Ids(st.table))
    case CloseOne(t, s) => With(Closed(st, s), t, Closing(th.left - {s}))
    case Finish(t) => With(st, t, Idle)
  }

  ghost predicate IsRun(states: seq<State>, events: seq<Event>) {
    && |states| == |events| + 1
    && (exists threads :: states[0] == Start(threads))
    && forall k :: 0 <= k < |events| ==> Enabled(states[k], events[k]) && states[k + 1] == Step(states[k], events[k])
  }

  // ------------------------------------------------------------------ invariants

  /** The sessions a goroutine holds in the middle of an operation. */
  function Holds(th: Thread): set<nat> {
    match th
    case Built(_, s) => {s}
    case Refused(_, s) => {s}
    case Closing(left) => left
    case _ => {}
  }

  predicate InCreate(th: Thread) {
    th.Locked? || th.Building? || th.Built? || th.Refused?
  }

  /** The table without its timestamps. */
  function Installs(t: Table): map<U32, nat> {
    map e | e in t :: t[e].id
  }

  /** A session in the table is the one installed for its epoch. */
  ghost predicate TableInv(ids: map<U32, nat>, epochOf: map<nat, U32>, place: map<nat, Place>) {
    forall e :: e in ids ==>
      && ids[e] in epochOf && epochOf[ids[e]] == e
      && ids[e] in place && place[ids[e]] == InTable
  }

  /** Each session is in exactly one place: the table, the hands of one goroutine, or gone; it is
      closed exactly once when it is gone and not before. */
  ghost predicate Placed(
    ids: map<U32, nat>, threads: map<nat, Thread>, epochOf: map<nat, U32>, closes: map<nat, nat>,
    place: map<nat, Place>, s: nat)
  {
    && s in epochOf && s in closes && s in place
    && match place[s]
       case InTable => epochOf[s] in ids && ids[epochOf[s]] == s && closes[s] == 0
       case HeldBy(t) => t in threads && s in Holds(threads[t]) && closes[s] == 0
       case Gone => closes[s] == 1
  }

  ghost predicate HoldInv(threads: map<nat, Thread>, place: map<nat, Place>) {
    forall t, s :: t in threads && s in Holds(threads[t]) ==> s in place && place[s] == HeldBy(t)
  }

  /** Where every session is. */
  ghost predicate Places(
    ids: map<U32, nat>, threads: map<nat, Thread>, epochOf: map<nat, U32>, closes: map<nat, nat>,
    place: map<nat, Place>)
  {
    && epochOf.Keys == closes.Keys == place.Keys
    && TableInv(ids, epochOf, place)
    && (forall s :: s in place ==> Placed(ids, threads, epochOf, closes, place, s))
    && HoldInv(threads, place)
  }

  ghost predicate ThreadOk(th: Thread, t: nat, lock: Option<nat>, keys: set<U32>, epochOf: map<nat, U32>) {
    && (InCreate(th) <==> lock == Some(t))
    && (th.Building? || th.Built? ==> th.e !in keys)
    && (th.Built? ==> th.s in epochOf && epochOf[th.s] == th.e && forall k :: k in epochOf ==> k <= th.s)
  }

  /** Creation is serialised, and while it runs the epoch is not in the table. */
  ghost predicate LockInv(threads: map<nat, Thread>, lock: Option<nat>, keys: set<U32>, epochOf: map<nat, U32>) {
    && (lock.Some? ==> lock.value in threads)
    && forall t :: t in threads ==> ThreadOk(threads[t], t, lock, keys, epochOf)
  }

  /** Only the newest session of an epoch can be in the table: another one is built only after it
      has left the table. */
  ghost predicate NewestInv(ids: map<U32, nat>, epochOf: map<nat, U32>) {
    forall e, s :: e in ids && s in epochOf && epochOf[s] == e ==> s <= ids[e]
  }

  ghost predicate Inv(st: State) {
    && |st.table| <= MAX_PEERS && (st.closed ==> st.table == map[])
    && Places(Installs(st.table), st.threads, st.epochOf, st.closes, st.place)
    && LockInv(st.threads, st.lock, st.table.Keys, st.epochOf)
    && NewestInv(Installs(st.table), st.epochOf)
  }

  // ------------------------------------------------------------------ each step

  /** A step that changes no session and hands none over. */
  lemma ThreadMoves(st: State, st': State, t: nat)
    requires Inv(st) && t in st.threads && Holds(st.threads[t]) == Holds(At(st', t))
    requires st'.threads == st.threads[t := At(st', t)] && Installs(st'.table) == Installs(st.table)
    requires st'.table.Keys == st.table.Keys && st'.closed == st.closed
    requires st'.epochOf == st.epochOf && st'.closes == st.closes && st'.place == st.place
    requires LockInv(st'.threads, st'.lock, st.table.Keys, st.epochOf)
    ensures Inv(st')
  {
    hide LockInv, Places, NewestInv, Installs;
    SameSize(st'.table, st.table);
    PlacesMove(Installs(st.table), st.threads, st.epochOf, st.closes, st.place, t, At(st', t));
  }

  lemma PlacesMove(
    ids: map<U32, nat>, threads: map<nat, Thread>, epochOf: map<nat, U32>, closes: map<nat, nat>,
    place: map<nat, Place>, t: nat, th: Thread)
    requires Places(ids, threads, epochOf, closes, place) && t in threads && Holds(threads[t]) == Holds(th)
    ensures Places(ids, threads[t := th], epochOf, closes, place)
  {
    hide TableInv;
    forall s | s in place ensures Placed(ids, threads[t := th], epochOf, closes, place, s) {
      assert Placed(ids, threads, epochOf, closes, place, s);
    }
  }

  lemma SameSize(a: Table, b: Table)
    requires a.Keys == b.Keys
    ensures |a| == |b|
  {
  }

  lemma TouchKeepsInstalls(t: Table, e: U32, now: int)
    requires e in t
    ensures Installs(Touched(t, e, now)) == Installs(t) && Touched(t, e, now).Keys == t.Keys
  {
  }

  /** Goroutine `t` enters, moves within or leaves the creation section. */
  lemma LockMoves(
    threads: map<nat, Thread>, lock: Option<nat>, lock': Option<nat>, keys: set<U32>, epochOf: map<nat, U32>,
    t: nat, th: Thread)
    requires LockInv(threads, lock, keys, epochOf) && t in threads && ThreadOk(th, t, lock', keys, epochOf)
    requires lock' == lock || (lock' == Some(t) && lock == None) || (lock' == None && lock == Some(t))
    ensures LockInv(threads[t := th], lock', keys, epochOf)
  {
    forall u | u in threads && u != t ensures ThreadOk(threads[u], u, lock', keys, epochOf) {
      assert ThreadOk(threads[u], u, lock, keys, epochOf);
    }
  }

  lemma FoundKeeps(st: State, t: nat, e: U32, now: int, lock': Option<nat>)
    requires Inv(st) && t in st.threads && e in st.table && Holds(st.threads[t]) == {}
    requires lock' == if InCreate(st.threads[t]) then None else st.lock
    ensures Inv(Found(st, t, e, now).(lock := lock'))
  {
    hide NewestInv;
    var st' := Found(st, t, e, now).(lock := lock');
    TouchKeepsInstalls(st.table, e, now);
    assert ThreadOk(st.threads[t], t, st.lock, st.table.Keys, st.epochOf);
    LockMoves(st.threads, st.lock, lock', st.table.Keys, st.epochOf, t, Idle);
    assert Installs(st.table)[e] == st.table[e].id;
    ThreadMoves(st, st', t);
  }

  lemma LookupKeeps(st: State, t: nat, e: U32, now: int)
    requires Inv(st) && Enabled(st, Lookup(t, e, now))
    ensures Inv(Step(st, Lookup(t, e, now)))
  {
    hide Places, NewestInv;
    assert ThreadOk(st.threads[t], t, st.lock, st.table.Keys, st.epochOf);
    if e in st.table {
      FoundKeeps(st, t, e, now, st.lock);
    } else {
      LockMoves(st.threads, st.lock, st.lock, st.table.Keys, st.epochOf, t, Missed(e));
      ThreadMoves(st, With(st, t, Missed(e)), t);
    }
  }

  lemma LockKeeps(st: State, t: nat)
    requires Inv(st) && Enabled(st, Lock(t))
    ensures Inv(Step(st, Lock(t)))
  {
    hide Places, NewestInv;
    LockMoves(st.threads, st.lock, Some(t), st.table.Keys, st.epochOf, t, Locked(st.threads[t].e));
    ThreadMoves(st, Step(st, Lock(t)), t);
  }

  lemma RelookupKeeps(st: State, t: nat, now: int)
    requires Inv(st) && Enabled(st, Relookup(t, now))
    ensures Inv(Step(st, Relookup(t, now)))
  {
    hide Places, NewestInv;
    var e := st.threads[t].e;
    assert ThreadOk(st.threads[t], t, st.lock, st.table.Keys, st.epochOf);
    if e in st.table {
      FoundKeeps(st, t, e, now, None);
    } else {
      LockMoves(st.threads, st.lock, st.lock, st.table.Keys, st.epochOf, t, Building(e));
      ThreadMoves(st, With(st, t, Building(e)), t);
    }
  }

  lemma BuildFailKeeps(st: State, t: nat, s: nat)
    requires Inv(st) && Enabled(st, Build(t, false, s))
    ensures Inv(Step(st, Build(t, false, s)))
  {
    hide Places, NewestInv;
    assert ThreadOk(st.threads[t], t, st.lock, st.table.Keys, st.epochOf);
    LockMoves(st.threads, st.lock, None, st.table.Keys, st.epochOf, t, Idle);
    ThreadMoves(st, Unlocked(st, t), t);
  }

  lemma FinishKeeps(st: State, t: nat)
    requires Inv(st) && Enabled(st, Finish(t))
    ensures Inv(Step(st, Finish(t)))
  {
    hide Places, NewestInv;
    assert ThreadOk(st.threads[t], t, st.lock, st.table.Keys, st.epochOf);
    LockMoves(st.threads, st.lock, st.lock, st.table.Keys, st.epochOf, t, Idle);
    ThreadMoves(st, With(st, t, Idle), t);
  }

  lemma RefuseKeeps(st: State, t: nat)
    requires Inv(st) && t in st.threads && st.threads[t].Built?
    ensures Inv(With(st, t, Refused(st.threads[t].e, st.threads[t].s)))
  {
    hide Places, NewestInv;
    assert ThreadOk(st.threads[t], t, st.lock, st.table.Keys, st.epochOf);
    LockMoves(st.threads, st.lock, st.lock, st.table.Keys, st.epochOf, t, Refused(st.threads[t].e, st.threads[t].s));
    ThreadMoves(st, With(st, t, Refused(st.threads[t].e, st.threads[t].s)), t);
  }

  /** Goroutine `t` closes a session it holds. */
  lemma CloseHeldKeeps(st: State, t: nat, s: nat, th: Thread, lock': Option<nat>)
    requires Inv(st) && t in st.threads && s in Holds(st.threads[t]) && Holds(th) == Holds(st.threads[t]) - {s}
    requires LockInv(st.threads[t := th], lock', st.table.Keys, st.epochOf)
    ensures Inv(With(Closed(st, s), t, th).(lock := lock'))
  {
    hide LockInv, NewestInv, Places, Installs;
    PlacesClose(Installs(st.table), st.threads, st.epochOf, st.closes, st.place, t, s, th);
  }

  lemma PlacesClose(
    ids: map<U32, nat>, threads: map<nat, Thread>, epochOf: map<nat, U32>, closes: map<nat, nat>,
    place: map<nat, Place>, t: nat, s: nat, th: Thread)
    requires Places(ids, threads, epochOf, closes, place) && t in threads
    requires s in Holds(threads[t]) && Holds(th) == Holds(threads[t]) - {s}
    ensures s in closes && Places(ids, threads[t := th], epochOf, closes[s := closes[s] + 1], place[s := Gone])
  {
    hide Holds;
    assert Placed(ids, threads, epochOf, closes, place, s);
    forall k | k in place
      ensures Placed(ids, threads[t := th], epochOf, closes[s := closes[s] + 1], place[s := Gone], k)
    {
      assert Placed(ids, threads, epochOf, closes, place, k);
    }
    assert TableInv(ids, epochOf, place[s := Gone]);
  }

  lemma CloseRefusedKeeps(st: State, t: nat)
    requires Inv(st) && Enabled(st, CloseRefused(t))
    ensures Inv(Step(st, CloseRefused(t)))
  {
    hide Places, NewestInv;
    assert ThreadOk(st.threads[t], t, st.lock, st.table.Keys, st.epochOf);
    LockMoves(st.threads, st.lock, None, st.table.Keys, st.epochOf, t, Idle);
    CloseHeldKeeps(st, t, st.threads[t].s, Idle, None);
  }

  lemma CloseOneKeeps(st: State, t: nat, s: nat)
    requires Inv(st) && Enabled(st, CloseOne(t, s))
    ensures Inv(Step(st, CloseOne(t, s)))
  {
    hide Places, NewestInv;
    assert ThreadOk(st.threads[t], t, st.lock, st.table.Keys, st.epochOf);
    var th := Closing(st.threads[t].left - {s});
    LockMoves(st.threads, st.lock, st.lock, st.table.Keys, st.epochOf, t, th);
    CloseHeldKeeps(st, t, s, th, st.lock);
    assert Step(st, CloseOne(t, s)) == With(Closed(st, s), t, th).(lock := st.lock);
  }

  /** Sessions leave the table into the hands of an idle goroutine. */
  lemma TakenKeeps(st: State, t: nat, gone: set<U32>, closed: bool)
    requires Inv(st) && t in st.threads && st.threads[t].Idle? && gone <= st.table.Keys
    requires closed ==> st.table - gone == map[]
    ensures var ids := set e | e in gone :: st.table[e].id;
            Inv(Taken(st.(table := st.table - gone, closed := closed), t, ids))
  {
    hide Places, LockInv, NewestInv;
    var ids := set e | e in gone :: st.table[e].id;
    TakenTable(st.table, gone);
    assert ids == set e | e in gone :: Installs(st.table)[e];
    PlacesTaken(Installs(st.table), st.threads, st.epochOf, st.closes, st.place, t, gone, ids);
    TakenLock(st, t, gone, ids);
    NewestSmaller(Installs(st.table), gone, st.epochOf);
  }

  lemma NewestSmaller(ids: map<U32, nat>, gone: set<U32>, epochOf: map<nat, U32>)
    requires NewestInv(ids, epochOf)
    ensures NewestInv(ids - gone, epochOf)
  {
  }

  lemma TakenTable(t: Table, gone: set<U32>)
    requires gone <= t.Keys
    ensures |t - gone| <= |t| && Installs(t - gone) == Installs(t) - gone
    ensures (t - gone).Keys == t.Keys - gone
  {
    SubsetSize((t - gone).Keys, t.Keys);
  }

  lemma TakenLock(st: State, t: nat, gone: set<U32>, ids: set<nat>)
    requires Inv(st) && t in st.threads && st.threads[t].Idle?
    ensures LockInv(st.threads[t := Closing(ids)], st.lock, (st.table - gone).Keys, st.epochOf)
  {
    hide Places, NewestInv;
    assert ThreadOk(st.threads[t], t, st.lock, st.table.Keys, st.epochOf);
    LockMoves(st.threads, st.lock, st.lock, st.table.Keys, st.epochOf, t, Closing(ids));
    hide LockInv;
    LockSmaller(st.threads[t := Closing(ids)], st.lock, st.table.Keys, (st.table - gone).Keys, st.epochOf);
  }

  lemma PlacesTaken(
    was: map<U32, nat>, threads: map<nat, Thread>, epochOf: map<nat, U32>, closes: map<nat, nat>,
    place: map<nat, Place>, t: nat, gone: set<U32>, ids: set<nat>)
    requires Places(was, threads, epochOf, closes, place) && t in threads && threads[t].Idle? && gone <= was.Keys
    requires ids == set e | e in gone :: was[e]
    ensures Places(was - gone, threads[t := Closing(ids)], epochOf, closes,
                   map s | s in place :: if s in ids then HeldBy(t) else place[s])
  {
    var place' := map s | s in place :: if s in ids then HeldBy(t) else place[s];
    var threads' := threads[t := Closing(ids)];
    forall s | s in ids ensures s in place && place[s] == InTable && epochOf[s] in gone {
      var e :| e in gone && was[e] == s;
    }
    forall s | s in place' ensures Placed(was - gone, threads', epochOf, closes, place', s) {
      PlacedTaken(was, threads, epochOf, closes, place, t, gone, ids, s);
    }
    TableTaken(was, epochOf, place, gone, ids, place');
    HoldTaken(threads, place, t, ids, place');
  }

  lemma PlacedTaken(
    was: map<U32, nat>, threads: map<nat, Thread>, epochOf: map<nat, U32>, closes: map<nat, nat>,
    place: map<nat, Place>, t: nat, gone: set<U32>, ids: set<nat>, s: nat)
    requires s in place && Placed(was, threads, epochOf, closes, place, s) && t in threads && threads[t].Idle?
    requires gone <= was.Keys && ids == set e | e in gone :: was[e]
    requires s in ids ==> place[s] == InTable
    ensures Placed(was - gone, threads[t := Closing(ids)], epochOf, closes,
                   map s | s in place :: if s in ids then HeldBy(t) else place[s], s)
  {
    assert place[s] == InTable && epochOf[s] in gone ==> was[epochOf[s]] in ids;
  }

  lemma TableTaken(
    was: map<U32, nat>, epochOf: map<nat, U32>, place: map<nat, Place>, gone: set<U32>, ids: set<nat>,
    place': map<nat, Place>)
    requires TableInv(was, epochOf, place) && place'.Keys == place.Keys
    requires forall s :: s in ids ==> s in epochOf && epochOf[s] in gone
    requires forall s :: s in place && s !in ids ==> place'[s] == place[s]
    ensures TableInv(was - gone, epochOf, place')
  {
  }

  lemma HoldTaken(
    threads: map<nat, Thread>, place: map<nat, Place>, t: nat, ids: set<nat>, place': map<nat, Place>)
    requires HoldInv(threads, place) && t in threads && place'.Keys == place.Keys
    requires forall s :: s in ids ==> s in place && place[s] == InTable && place'[s] == HeldBy(t)
    requires forall s :: s in place && s !in ids ==> place'[s] == place[s]
    ensures HoldInv(threads[t := Closing(ids)], place')
  {
  }

  lemma SweepKeeps(st: State, t: nat, cutoff: int)
    requires Inv(st) && Enabled(st, Sweep(t, cutoff))
    ensures Inv(Step(st, Sweep(t, cutoff)))
  {
    hide Places, NewestInv, LockInv, Installs;
    var gone := Stale(st.table, cutoff);
    assert st.closed ==> st.table - gone == map[];
    TakenKeeps(st, t, gone, st.closed);
    assert st.(table := st.table - gone, closed := st.closed) == st.(table := st.table - gone);
  }

  lemma CloseAllKeeps(st: State, t: nat)
    requires Inv(st) && Enabled(st, CloseAll(t))
    ensures Inv(Step(st, CloseAll(t)))
  {
    hide Places, NewestInv, LockInv, Installs;
    var gone := st.table.Keys;
    assert st.table - gone == map[];
    TakenKeeps(st, t, gone, true);
    assert Ids(st.table) == set e | e in gone :: st.table[e].id;
  }

  lemma BuildKeeps(st: State, t: nat, s: nat)
    requires Inv(st) && Enabled(st, Build(t, true, s))
    ensures Inv(Step(st, Build(t, true, s)))
  {
    hide Installs, Places, NewestInv, LockInv;
    BuildLock(st, t, s);
    InstallsKeys(st.table);
    PlacesBuild(Installs(st.table), st.threads, st.epochOf, st.closes, st.place, t, st.threads[t].e, s);
    NewestBuild(Installs(st.table), st.epochOf, st.threads[t].e, s);
  }

  lemma NewestBuild(ids: map<U32, nat>, epochOf: map<nat, U32>, e: U32, s: nat)
    requires NewestInv(ids, epochOf) && e !in ids
    ensures NewestInv(ids, epochOf[s := e])
  {
  }

  lemma PlacesBuild(
    ids: map<U32, nat>, threads: map<nat, Thread>, epochOf: map<nat, U32>, closes: map<nat, nat>,
    place: map<nat, Place>, t: nat, e: U32, s: nat)
    requires Places(ids, threads, epochOf, closes, place) && t in threads && Holds(threads[t]) == {} && s !in epochOf
    ensures Places(ids, threads[t := Built(e, s)], epochOf[s := e], closes[s := 0], place[s := HeldBy(t)])
  {
    forall k | k in place
      ensures Placed(ids, threads[t := Built(e, s)], epochOf[s := e], closes[s := 0], place[s := HeldBy(t)], k)
    {
      assert Placed(ids, threads, epochOf, closes, place, k);
    }
  }

  lemma InstallsKeys(t: Table)
    ensures Installs(t).Keys == t.Keys
  {
  }

  lemma BuildLock(st: State, t: nat, s: nat)
    requires Inv(st) && Enabled(st, Build(t, true, s))
    ensures var e := st.threads[t].e;
            && e !in st.table
            && LockInv(st.threads[t := Built(e, s)], st.lock, st.table.Keys, st.epochOf[s := e])
  {
    hide Places, NewestInv;
    assert ThreadOk(st.threads[t], t, st.lock, st.table.Keys, st.epochOf);
    forall u | u in st.threads && u != t
      ensures ThreadOk(st.threads[u], u, st.lock, st.table.Keys, st.epochOf[s := st.threads[t].e])
    {
      assert ThreadOk(st.threads[u], u, st.lock, st.table.Keys, st.epochOf);
    }
  }

  /** Evicting one session closes it. */
  lemma EvictKeeps(st: State, v: U32)
    requires Inv(st) && v in st.table
    ensures Inv(Closed(st, st.table[v].id).(table := st.table - {v}))
    ensures |st.table - {v}| == |st.table| - 1
  {
    hide Places, NewestInv, LockInv;
    TakenTable(st.table, {v});
    InstallsKeys(st.table);
    PlacesEvict(Installs(st.table), st.threads, st.epochOf, st.closes, st.place, v);
    NewestSmaller(Installs(st.table), {v}, st.epochOf);
    LockSmaller(st.threads, st.lock, st.table.Keys, st.table.Keys - {v}, st.epochOf);
  }

  lemma LockSmaller(
    threads: map<nat, Thread>, lock: Option<nat>, keys: set<U32>, keys': set<U32>, epochOf: map<nat, U32>)
    requires LockInv(threads, lock, keys, epochOf) && keys' <= keys
    ensures LockInv(threads, lock, keys', epochOf)
  {
    forall u | u in threads ensures ThreadOk(threads[u], u, lock, keys', epochOf) {
      assert ThreadOk(threads[u], u, lock, keys, epochOf);
    }
  }

  lemma PlacesEvict(
    ids: map<U32, nat>, threads: map<nat, Thread>, epochOf: map<nat, U32>, closes: map<nat, nat>,
    place: map<nat, Place>, v: U32)
    requires Places(ids, threads, epochOf, closes, place) && v in ids
    ensures var s := ids[v];
            s in closes && Places(ids - {v}, threads, epochOf, closes[s := closes[s] + 1], place[s := Gone])
  {
    hide Holds;
    var s := ids[v];
    assert Placed(ids, threads, epochOf, closes, place, s);
    forall k | k in place
      ensures Placed(ids - {v}, threads, epochOf, closes[s := closes[s] + 1], place[s := Gone], k)
    {
      assert Placed(ids, threads, epochOf, closes, place, k);
    }
  }

  /** A built session enters a table with room. */
  lemma InstallKeeps(st: State, t: nat, now: int)
    requires Inv(st) && t in st.threads && st.threads[t].Built? && !st.closed && |st.table| < MAX_PEERS
    ensures var Built(e, s) := st.threads[t];
            Inv(Unlocked(st, t).(table := st.table[e := Entry(s, now)], place := st.place[s := InTable]))
  {
    hide Installs, Places, NewestInv;
    var Built(e, s) := st.threads[t];
    assert ThreadOk(st.threads[t], t, st.lock, st.table.Keys, st.epochOf);
    InstallTable(st.table, e, s, now);
    InstallsKeys(st.table);
    InstallLock(st, t, e);
    PlacesInstall(Installs(st.table), st.threads, st.epochOf, st.closes, st.place, t, e, s);
    NewestInstall(Installs(st.table), st.epochOf, e, s);
  }

  lemma NewestInstall(ids: map<U32, nat>, epochOf: map<nat, U32>, e: U32, s: nat)
    requires NewestInv(ids, epochOf) && forall k :: k in epochOf ==> k <= s
    ensures NewestInv(ids[e := s], epochOf)
  {
  }

  lemma InstallTable(t: Table, e: U32, s: nat, now: int)
    requires e !in t
    ensures |t[e := Entry(s, now)]| == |t| + 1 && Installs(t[e := Entry(s, now)]) == Installs(t)[e := s]
    ensures t[e := Entry(s, now)].Keys == t.Keys + {e}
  {
  }

  lemma InstallLock(st: State, t: nat, e: U32)
    requires Inv(st) && t in st.threads && st.threads[t].Built?
    ensures LockInv(st.threads[t := Idle], None, st.table.Keys + {e}, st.epochOf)
  {
    hide Places, NewestInv;
    assert ThreadOk(st.threads[t], t, st.lock, st.table.Keys, st.epochOf);
    forall u | u in st.threads && u != t ensures ThreadOk(st.threads[u], u, None, st.table.Keys + {e}, st.epochOf) {
      assert ThreadOk(st.threads[u], u, st.lock, st.table.Keys, st.epochOf);
    }
  }

  lemma PlacesInstall(
    ids: map<U32, nat>, threads: map<nat, Thread>, epochOf: map<nat, U32>, closes: map<nat, nat>,
    place: map<nat, Place>, t: nat, e: U32, s: nat)
    requires Places(ids, threads, epochOf, closes, place) && t in threads && threads[t] == Built(e, s)
    requires e !in ids && s in epochOf && epochOf[s] == e
    ensures Places(ids[e := s], threads[t := Idle], epochOf, closes, place[s := InTable])
  {
    assert Holds(threads[t]) == {s};
    assert Placed(ids, threads, epochOf, closes, place, s);
    forall k | k in place ensures Placed(ids[e := s], threads[t := Idle], epochOf, closes, place[s := InTable], k) {
      assert Placed(ids, threads, epochOf, closes, place, k);
    }
  }

  lemma AddKeeps(st: State, t: nat, now: int, victim: U32)
    requires Inv(st) && Enabled(st, Add(t, now, victim))
    ensures Inv(Step(st, Add(t, now, victim)))
  {
    hide Places, LockInv, NewestInv, Installs;
    if st.closed || st.threads[t].e in st.table {
      RefuseKeeps(st, t);
    } else if |st.table| >= MAX_PEERS {
      EvictKeeps(st, victim);
      InstallKeeps(Closed(st, st.table[victim].id).(table := st.table - {victim}), t, now);
    } else {
      InstallKeeps(st, t, now);
    }
  }

  lemma StepKeeps(st: State, ev: Event)
    requires Inv(st) && Enabled(st, ev)
    ensures Inv(Step(st, ev))
  {
    hide Inv, Step;
    match ev
    case Lookup(t, e, now) => LookupKeeps(st, t, e, now);
    case Lock(t) => LockKeeps(st, t);
    case Relookup(t, now) => RelookupKeeps(st, t, now);
    case Build(t, ok, s) => if ok { BuildKeeps(st, t, s); } else { BuildFailKeeps(st, t, s); }
    case Add(t, now, victim) => AddKeeps(st, t, now, victim);
    case CloseRefused(t) => CloseRefusedKeeps(st, t);
    case Sweep(t, cutoff) => SweepKeeps(st, t, cutoff);
    case CloseAll(t) => CloseAllKeeps(st, t);
    case CloseOne(t, s) => CloseOneKeeps(st, t, s);
    case Finish(t) => FinishKeeps(st, t);
  }

  lemma StartInv(threads: set<nat>)
    ensures Inv(Start(threads))
  {
  }

  lemma {:induction false} RunInv(states: seq<State>, events: seq<Event>, k: nat)
    requires IsRun(states, events) && k <= |events|
    ensures Inv(states[k])
  {
    if k == 0 {
      var threads :| states[0] == Start(threads);
      StartInv(threads);
    } else {
      RunInv(states, events, k - 1);
      StepKeeps(states[k - 1], events[k - 1]);
    }
  }

  // ------------------------------------------------------------------- theorems

  lemma WhereIs(
    ids: map<U32, nat>, threads: map<nat, Thread>, epochOf: map<nat, U32>, closes: map<nat, nat>,
    place: map<nat, Place>, s: nat)
    requires Places(ids, threads, epochOf, closes, place) && s in epochOf
    ensures var inTable := epochOf[s] in ids && ids[epochOf[s]] == s;
            var held := exists t :: t in threads && s in Holds(threads[t]);
            !(inTable && held) && s in closes && closes[s] == (if inTable || held then 0 else 1)
  {
    assert Placed(ids, threads, epochOf, closes, place, s);
  }

  /** In every interleaving: the table never holds more than 64 sessions, one per epoch; a session
      that is neither in the table nor held by a goroutine in the middle of an operation has been
      closed exactly once; one that is in the table or held has not been closed; and a closed
      table admits nothing. */
  lemma PeerTableSafe(states: seq<State>, events: seq<Event>, s: nat)
    requires IsRun(states, events)
    ensures var st := states[|events|];
            && |st.table| <= MAX_PEERS
            && (st.closed ==> st.table == map[])
            && (s in st.epochOf ==>
                  var inTable := st.epochOf[s] in st.table && st.table[st.epochOf[s]].id == s;
                  var held := exists t :: t in st.threads && s in Holds(st.threads[t]);
                  && !(inTable && held)
                  && s in st.closes && st.closes[s] == (if inTable || held then 0 else 1))
  {
    hide Places, LockInv, NewestInv, Step;
    var st := states[|events|];
    RunInv(states, events, |events|);
    if s in st.epochOf {
      InstallsKeys(st.table);
      WhereIs(Installs(st.table), st.threads, st.epochOf, st.closes, st.place, s);
    }
  }

  ghost predicate Has(st: State, e: U32, s: nat) {
    e in st.table && st.table[e].id == s
  }

  /** What peerSessionFor returns in this step. */
  ghost function Returned(st: State, ev: Event): Option<(U32, nat)>
    requires Enabled(st, ev)
  {
    var th := st.threads[ev.t];
    match ev
    case Lookup(_, e, _) => if e in st.table then Some((e, st.table[e].id)) else None
    case Relookup(_, _) => if th.e in st.table then Some((th.e, st.table[th.e].id)) else None
    case Add(_, _, _) => if st.closed || th.e in st.table then None else Some((th.e, th.s))
    case _ => None
  }

  lemma ReturnsInstalled(st: State, ev: Event, e: U32, s: nat)
    requires Enabled(st, ev) && Returned(st, ev) == Some((e, s))
    ensures Has(Step(st, ev), e, s)
  {
  }

  /** Built, and past the point where it could be installed. */
  ghost predicate Settled(st: State, e: U32, s: nat) {
    && s in st.epochOf && st.epochOf[s] == e
    && forall t :: t in st.threads ==> !(st.threads[t].Built? && st.threads[t].s == s)
  }

  lemma HasSettled(st: State, e: U32, s: nat)
    requires Inv(st) && Has(st, e, s)
    ensures Settled(st, e, s)
  {
    hide LockInv, NewestInv;
    assert Installs(st.table)[e] == s;
    forall t | t in st.threads ensures !(st.threads[t].Built? && st.threads[t].s == s) {
      assert st.place[s] == InTable;
    }
  }

  /** Where the goroutine that takes a step stands afterwards. */
  ghost function Moved(st: State, ev: Event): Thread
    requires Enabled(st, ev)
  {
    var th := st.threads[ev.t];
    match ev
    case Lookup(_, e, _) => if e in st.table then Idle else Missed(e)
    case Lock(_) => Locked(th.e)
    case Relookup(_, _) => if th.e in st.table then Idle else Building(th.e)
    case Build(_, ok, s) => if ok then Built(th.e, s) else Idle
    case Add(_, _, _) => if st.closed || th.e in st.table then Refused(th.e, th.s) else Idle
    case Sweep(_, cutoff) => Closing(set e | e in Stale(st.table, cutoff) :: st.table[e].id)
    case CloseAll(_) => Closing(Ids(st.table))
    case CloseOne(_, s) => Closing(th.left - {s})
    case _ => Idle
  }

  /** A step changes the goroutine that takes it and no other. */
  lemma OneMoves(st: State, ev: Event)
    requires Enabled(st, ev)
    ensures Step(st, ev).threads == st.threads[ev.t := Moved(st, ev)]
  {
    hide Stale, Touched, Ids;
    match ev
    case Lookup(_, _, _) =>
    case Lock(_) =>
    case Relookup(_, _) =>
    case Build(_, _, _) =>
    case Add(t, now, victim) =>
      if !st.closed && st.threads[t].e !in st.table {
        InstalledMoves(st, t, now, victim);
      }
    case CloseRefused(_) =>
    case Sweep(_, _) =>
    case CloseAll(_) =>
    case CloseOne(_, _) =>
    case Finish(_) =>
  }

  lemma InstalledMoves(st: State, t: nat, now: int, victim: U32)
    requires At(st, t).Built? && (|st.table| >= MAX_PEERS ==> victim in st.table)
    ensures Installed(st, t, now, victim).threads == st.threads[t := Idle]
  {
  }

  lemma BuiltBefore(st: State, ev: Event, t: nat, e: U32, s: nat)
    requires Enabled(st, ev) && t in Step(st, ev).threads && Step(st, ev).threads[t] == Built(e, s)
    ensures t in st.threads && (st.threads[t] == Built(e, s) || s !in st.epochOf)
  {
    hide Step, Stale, Ids;
    OneMoves(st, ev);
  }

  lemma HadBefore(st: State, ev: Event, e: U32, s: nat)
    requires Enabled(st, ev) && Has(Step(st, ev), e, s)
    ensures Has(st, e, s) || st.threads[ev.t] == Built(e, s)
  {
  }

  lemma EpochKept(st: State, ev: Event, s: nat)
    requires Enabled(st, ev) && s in st.epochOf
    ensures s in Step(st, ev).epochOf && Step(st, ev).epochOf[s] == st.epochOf[s]
  {
  }

  lemma SettledStays(st: State, ev: Event, e: U32, s: nat)
    requires Enabled(st, ev) && Settled(st, e, s)
    ensures Settled(Step(st, ev), e, s)
    ensures !Has(st, e, s) ==> !Has(Step(st, ev), e, s)
  {
    hide Step, Has;
    var st' := Step(st, ev);
    EpochKept(st, ev, s);
    forall t | t in st'.threads ensures !(st'.threads[t].Built? && st'.threads[t].s == s) {
      if st'.threads[t].Built? && st'.threads[t].s == s {
        BuiltBefore(st, ev, t, st'.threads[t].e, s);
      }
    }
    if Has(st', e, s) {
      HadBefore(st, ev, e, s);
    }
  }

  /** A session that has left the table never comes back. */
  lemma {:induction false} LeavesForGood(states: seq<State>, events: seq<Event>, k: nat, j: nat, e: U32, s: nat)
    requires IsRun(states, events) && k <= j <= |events| && Settled(states[k], e, s)
    ensures Settled(states[j], e, s)
    ensures !Has(states[k], e, s) ==> !Has(states[j], e, s)
    decreases j
  {
    hide Settled, Has, Step;
    if k < j {
      LeavesForGood(states, events, k, j - 1, e, s);
      SettledStays(states[j - 1], events[j - 1], e, s);
    }
  }

  /** Concurrent callers converge: when two calls of peerSessionFor for one epoch return `a` and
      later `b`, then `b` is `a` exactly when `a` stayed in the table all the while; and no later
      call returns an older session. */
  lemma CallersConverge(states: seq<State>, events: seq<Event>, i: nat, j: nat, e: U32, a: nat, b: nat)
    requires IsRun(states, events) && i < j < |events|
    requires Returned(states[i], events[i]) == Some((e, a)) && Returned(states[j], events[j]) == Some((e, b))
    ensures a == b <==> forall k :: i < k <= j + 1 ==> Has(states[k], e, a)
    ensures a <= b
  {
    hide Step, Returned, Inv, Enabled, Settled;
    ReturnsInstalled(states[i], events[i], e, a);
    ReturnsInstalled(states[j], events[j], e, b);
    RunInv(states, events, i + 1);
    HasSettled(states[i + 1], e, a);
    forall k | i < k <= j + 1 && a == b ensures Has(states[k], e, a) {
      LeavesForGood(states, events, i + 1, k, e, a);
      LeavesForGood(states, events, k, j + 1, e, a);
    }
    LeavesForGood(states, events, i + 1, j + 1, e, a);
    RunInv(states, events, j + 1);
    NewestInTable(states[j + 1], e, a);
  }

  lemma NewestInTable(st: State, e: U32, a: nat)
    requires Inv(st) && Settled(st, e, a) && e in st.table
    ensures a <= st.table[e].id
  {
    hide Places, LockInv;
    assert Installs(st.table)[e] == st.table[e].id;
  }

  /** The refusal of a second session for an epoch is a backstop that no interleaving reaches. */
  lemma AddFailsOnlyWhenClosed(states: seq<State>, events: seq<Event>, t: nat)
    requires IsRun(states, events)
    requires var st := states[|events|]; t in st.threads && st.threads[t].Built?
    ensures states[|events|].threads[t].e !in states[|events|].table
  {
    var st := states[|events|];
    RunInv(states, events, |events|);
    assert ThreadOk(st.threads[t], t, st.lock, st.table.Keys, st.epochOf);
  }
}
