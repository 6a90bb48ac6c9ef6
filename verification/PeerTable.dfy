/** The server's table of peer sessions: get-or-create, eviction, sweeping and shutdown. */
module PeerTable {
  import opened Bytes

  const MAX_PEERS := 64

  /** A session in the table, by identity, with the time of its last frame. */
  datatype Entry = Entry(id: nat, lastSeen: int)

  type Table = map<U32, Entry>

  ghost predicate LeastRecent(t: Table, v: U32) {
    v in t && forall e :: e in t ==> t[v].lastSeen <= t[e].lastSeen
  }

  function Touched(t: Table, e: U32, now: int): Table
    requires e in t
  {
    t[e := t[e].(lastSeen := now)]
  }

  /** The epochs a sweep removes. */
  function Stale(t: Table, cutoff: int): set<U32> {
    set e | e in t && t[e].lastSeen < cutoff
  }

  function Ids(t: Table): set<nat> {
    set e | e in t :: t[e].id
  }

  class Peers {
    var sessions: Table
    var closed: bool
    ghost var closes: seq<nat>

    /** The session of an epoch, with its idle timer refreshed. */
    method Get(epoch: U32, now: int) returns (r: Option<nat>)
      modifies this`sessions
      ensures if epoch in old(sessions)
              then r == Some(old(sessions)[epoch].id) && sessions == Touched(old(sessions), epoch, now)
              else r == None && sessions == old(sessions)
    {
      if epoch !in sessions {
        return None;
      }
      r := Some(sessions[epoch].id);
      sessions := sessions[epoch := sessions[epoch].(lastSeen := now)];
    }

    /** Installs a session, evicting a least recently seen one when the table is full. A closed
        table and an epoch already present are refused and nothing changes. */
    method Add(epoch: U32, id: nat, now: int) returns (ok: bool)
      requires |sessions| <= MAX_PEERS
      modifies this`sessions, this`closes
      ensures ok == (!closed && epoch !in old(sessions)) && |sessions| <= MAX_PEERS
      ensures !ok ==> sessions == old(sessions) && closes == old(closes)
      ensures ok && |old(sessions)| < MAX_PEERS ==>
                sessions == old(sessions)[epoch := Entry(id, now)] && closes == old(closes)
      ensures ok && |old(sessions)| >= MAX_PEERS ==>
                exists v: U32 :: LeastRecent(old(sessions), v)
                            && sessions == (old(sessions) - {v})[epoch := Entry(id, now)]
                            && closes == old(closes) + [old(sessions)[v].id]
    {
      if closed || epoch in sessions {
        return false;
      }
      if |sessions| >= MAX_PEERS {
        ghost var v := EvictOldest();
        assert sessions.Keys == old(sessions).Keys - {v};
      }
      ghost var before := sessions;
      sessions := sessions[epoch := Entry(id, now)];
      assert sessions.Keys == before.Keys + {epoch};
      return true;
    }

    method EvictOldest() returns (ghost v: U32)
      requires |sessions| > 0
      modifies this`sessions, this`closes
      ensures LeastRecent(old(sessions), v) && sessions == old(sessions) - {v}
      ensures closes == old(closes) + [old(sessions)[v].id]
    {
      var rest := sessions.Keys;
      var found, oldest := false, 0;
      while rest != {}
        invariant rest <= sessions.Keys && sessions == old(sessions) && closes == old(closes)
        invariant found <==> rest != sessions.Keys
        invariant found ==> oldest in sessions
        invariant found ==> forall e :: e in sessions && e !in rest ==> sessions[oldest].lastSeen <= sessions[e].lastSeen
        decreases rest
      {
        var e :| e in rest;
        rest := rest - {e};
        assert e in sessions && e !in rest;
        if !found || sessions[e].lastSeen < sessions[oldest].lastSeen {
          oldest, found := e, true;
        }
      }
      assert sessions.Keys != {};
      v := oldest;
      closes := closes + [sessions[oldest].id];
      sessions := sessions - {oldest};
    }

    /** Removes every session idle since before the cutoff; they are closed afterwards. */
    method Sweep(cutoff: int) returns (stale: set<nat>)
      modifies this`sessions
      ensures sessions == old(sessions) - Stale(old(sessions), cutoff)
      ensures stale == set e | e in Stale(old(sessions), cutoff) :: old(sessions)[e].id
    {
      stale := {};
      var rest := sessions.Keys;
      ghost var gone: set<U32> := {};
      while rest != {}
        invariant rest <= old(sessions).Keys && gone == Stale(old(sessions), cutoff) - rest
        invariant sessions == old(sessions) - gone
        invariant stale == set e | e in gone :: old(sessions)[e].id
        decreases rest
      {
        var e :| e in rest;
        rest := rest - {e};
        if sessions[e].lastSeen < cutoff {
          stale := stale + {sessions[e].id};
          sessions := sessions - {e};
          gone := gone + {e};
        }
      }
      assert gone == Stale(old(sessions), cutoff);
    }

    /** Empties the table for good. */
    method CloseAll() returns (all: set<nat>)
      modifies this`sessions, this`closed
      ensures sessions == map[] && closed && all == Ids(old(sessions))
    {
      all := set e | e in sessions :: sessions[e].id;
      sessions := map[];
      closed := true;
    }
  }
}
