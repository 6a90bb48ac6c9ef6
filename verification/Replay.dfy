/** The anti-replay cache of the record layer: a 64-bit window per sender prefix, in a cache of the
    256 most recently accepted prefixes. */
module Replay {
  import opened Bytes

  const WINDOW := 64
  const MAX_SENDERS := 256

  type U64 = x: int | 0 <= x < 0x1_0000_0000_0000_0000

  type Prefix = seq<Byte>

  // -------------------------------------------------------- 64-bit words as bits

  const NO_BITS: seq<bool> := seq(64, _ => false)

  /** A uint64 used as a bitmap; index 0 is the least significant bit. */
  type Word = w: seq<bool> | |w| == 64 witness NO_BITS

  function One(): Word {
    seq(64, i => i == 0)
  }

  /** `w << n`: bits shifted past the top are lost. */
  function Shl(w: Word, n: nat): Word {
    seq(64, i requires 0 <= i < 64 => i >= n && w[i - n])
  }

  function Or(a: Word, b: Word): Word {
    seq(64, i requires 0 <= i < 64 => a[i] || b[i])
  }

  function And(a: Word, b: Word): Word {
    seq(64, i requires 0 <= i < 64 => a[i] && b[i])
  }

  predicate NonZero(w: Word) {
    exists i :: 0 <= i < 64 && w[i]
  }

  // --------------------------------------------------------- one sender window

  /** Bit `i` of `seen` stands for counter `highest - i`. */
  datatype Sender = Sender(highest: U64, seen: Word)

  datatype Verdict = Accepted | Duplicate | TooOld

  function Check(st: Sender, counter: U64): (Sender, Verdict) {
    if counter > st.highest then
      var shift := counter - st.highest;
      (Sender(counter, if shift >= WINDOW then One() else Or(Shl(st.seen, shift), One())), Accepted)
    else
      var age := st.highest - counter;
      if age >= WINDOW then (st, TooOld)
      else
        var mask := Shl(One(), age);
        if NonZero(And(st.seen, mask)) then (st, Duplicate)
        else (Sender(st.highest, Or(st.seen, mask)), Accepted)
  }

  lemma MaskTestsBit(w: Word, age: nat)
    requires age < 64
    ensures NonZero(And(w, Shl(One(), age))) <==> w[age]
  {
    assert And(w, Shl(One(), age))[age] == w[age];
  }

  /** The window agrees with the plain set `acc` of counters accepted so far. */
  ghost predicate Represents(st: Sender, acc: set<U64>) {
    && st.highest in acc
    && (forall c :: c in acc ==> c <= st.highest)
    && (forall c: U64 :: st.highest - 64 < c <= st.highest ==> (st.seen[st.highest - c] <==> c in acc))
  }

  lemma FirstRepresents(counter: U64)
    ensures Represents(Sender(counter, One()), {counter})
  {
  }

  /** The bitmap refines a set: a counter is accepted exactly when it is new and less than 64 below
      the highest accepted one, and the window then stands for the set with it. */
  lemma CheckRefinesSet(st: Sender, acc: set<U64>, counter: U64)
    requires Represents(st, acc)
    ensures var (st', v) := Check(st, counter);
            && (v == Accepted <==> counter !in acc && counter > st.highest - WINDOW)
            && (v == TooOld <==> counter <= st.highest - WINDOW)
            && (v != Accepted ==> st' == st)
            && (v == Accepted ==> Represents(st', acc + {counter}))
  {
    var (st', v) := Check(st, counter);
    if counter > st.highest {
      var shift := counter - st.highest;
      forall c: U64 | counter - 64 < c <= counter ensures st'.seen[counter - c] <==> c in acc + {counter} {
        assert shift < WINDOW && c <= st.highest ==> st'.seen[counter - c] == st.seen[st.highest - c];
      }
    } else if st.highest - counter < WINDOW {
      MaskTestsBit(st.seen, st.highest - counter);
    }
  }

  // --------------------------------------------------------- the cache of senders

  /** `lru` lists the resident prefixes, most recently accepted first. */
  datatype Cache = Cache(senders: map<Prefix, Sender>, lru: seq<Prefix>)

  function Without(s: seq<Prefix>, p: Prefix): seq<Prefix> {
    if s == [] then []
    else if s[0] == p then s[1..]
    else [s[0]] + Without(s[1..], p)
  }

  function MoveToFront(s: seq<Prefix>, p: Prefix): seq<Prefix> {
    [p] + Without(s, p)
  }

  function Room(k: Cache): Cache {
    if |k.senders| < MAX_SENDERS || k.lru == [] then k
    else Cache(k.senders - {k.lru[|k.lru| - 1]}, k.lru[..|k.lru| - 1])
  }

  function Insert(k: Cache, p: Prefix, counter: U64): Cache {
    var r := Room(k);
    Cache(r.senders[p := Sender(counter, One())], [p] + r.lru)
  }

  function Accept(k: Cache, p: Prefix, counter: U64): (Cache, Verdict) {
    if p !in k.senders then (Insert(k, p, counter), Accepted)
    else
      var (st, v) := Check(k.senders[p], counter);
      if v == Accepted then (Cache(k.senders[p := st], MoveToFront(k.lru, p)), Accepted) else (k, v)
  }

  predicate NoRepeats(s: seq<Prefix>) {
    forall i, j :: 0 <= i < j < |s| ==> s[i] != s[j]
  }

  /** Map and list agree and hold at most 256 prefixes. */
  ghost predicate CacheInv(k: Cache) {
    && NoRepeats(k.lru) && |k.lru| == |k.senders| <= MAX_SENDERS
    && forall p :: p in k.lru <==> p in k.senders
  }

  lemma {:induction false} WithoutMembers(s: seq<Prefix>, p: Prefix)
    requires NoRepeats(s)
    ensures forall q :: q in Without(s, p) <==> q in s && q != p
    ensures |Without(s, p)| == |s| - (if p in s then 1 else 0)
  {
    if s != [] {
      assert s == [s[0]] + s[1..];
      if s[0] == p {
        assert p !in s[1..];
      } else {
        WithoutMembers(s[1..], p);
      }
    }
  }

  lemma {:induction false} WithoutNoRepeats(s: seq<Prefix>, p: Prefix)
    requires NoRepeats(s)
    ensures NoRepeats(Without(s, p))
  {
    if s != [] && s[0] != p {
      WithoutNoRepeats(s[1..], p);
      WithoutMembers(s[1..], p);
      var rest := Without(s[1..], p);
      assert s[0] !in s[1..];
      assert forall i :: 0 <= i < |rest| ==> rest[i] in rest && rest[i] != s[0];
    }
  }

  lemma AcceptKeepsInv(k: Cache, p: Prefix, counter: U64)
    requires CacheInv(k)
    ensures CacheInv(Accept(k, p, counter).0)
  {
    if p in k.senders {
      WithoutMembers(k.lru, p);
      WithoutNoRepeats(k.lru, p);
    } else {
      RoomKeepsInv(k);
    }
  }

  lemma RoomKeepsInv(k: Cache)
    requires CacheInv(k)
    ensures CacheInv(Room(k)) && |Room(k).lru| < MAX_SENDERS
    ensures Room(k) != k ==> |k.lru| == MAX_SENDERS
  {
    var r := Room(k);
    if r != k {
      assert r.senders.Keys == k.senders.Keys - {k.lru[|k.lru| - 1]};
    }
  }

  // --------------------------------------------------- what every run guarantees

  type History = seq<(Prefix, U64)>

  /** `h` lists the accepted records of a run of `requests`, in order. */
  ghost function Run(requests: seq<(Prefix, U64)>): (Cache, History) {
    if requests == [] then (Cache(map[], []), [])
    else
      var (k, h) := Run(requests[..|requests| - 1]);
      var (p, c) := requests[|requests| - 1];
      var (k', v) := Accept(k, p, c);
      (k', if v == Accepted then h + [(p, c)] else h)
  }

  /** `l` is the last accept of `p` in `h`. */
  ghost predicate IsLast(h: History, p: Prefix, l: nat) {
    l < |h| && h[l].0 == p && forall k :: l < k < |h| ==> h[k].0 != p
  }

  /** The prefixes accepted from index `lo` on. */
  ghost function Since(h: History, lo: nat): set<Prefix> {
    set k: nat | lo <= k < |h| :: h[k].0
  }

  /** If `p` was ever accepted, at least 256 other prefixes were accepted since its last accept. */
  ghost predicate Displaced(h: History, p: Prefix) {
    forall l: nat :: IsLast(h, p, l) ==> |Since(h, l + 1)| >= MAX_SENDERS
  }

  ghost function Counters(h: History, p: Prefix, born: nat): set<U64> {
    set k: nat | born <= k < |h| && h[k].0 == p :: h[k].1
  }

  /** `p` entered the cache with record `born`, and its window holds what was accepted since. */
  ghost predicate Resident(k: Cache, h: History, p: Prefix, born: nat) {
    && born < |h| && h[born].0 == p && Displaced(h[..born], p)
    && p in k.senders && Represents(k.senders[p], Counters(h, p, born))
  }

  /** `q` was accepted after the last accept of `p`. */
  ghost predicate Newer(h: History, q: Prefix, p: Prefix) {
    forall l: nat :: IsLast(h, p, l) ==> q in Since(h, l + 1)
  }

  /** The list is ordered by last accept. */
  ghost predicate Ordered(lru: seq<Prefix>, h: History) {
    forall i, j :: 0 <= i < j < |lru| ==> Newer(h, lru[i], lru[j])
  }

  ghost predicate Inv(k: Cache, h: History) {
    && CacheInv(k) && Ordered(k.lru, h)
    && (forall p :: p in k.senders ==> exists born :: Resident(k, h, p, born))
    && (forall p :: p !in k.senders ==> Displaced(h, p))
  }

  lemma IsLastSnoc(h: History, e: (Prefix, U64), p: Prefix, l: nat)
    ensures IsLast(h + [e], p, l) <==> if e.0 == p then l == |h| else IsLast(h, p, l)
  {
    var g := h + [e];
    assert g[|h|] == e;
    assert forall k :: 0 <= k < |h| ==> g[k] == h[k];
    if IsLast(g, p, l) && e.0 != p {
      assert forall k :: l < k < |h| ==> g[k].0 != p;
    }
  }

  lemma SinceSnoc(h: History, e: (Prefix, U64), lo: nat)
    requires lo <= |h|
    ensures Since(h + [e], lo) == Since(h, lo) + {e.0}
  {
    var g := h + [e];
    assert g[|h|] == e;
    assert forall k :: 0 <= k < |h| ==> g[k] == h[k];
    forall q | q in Since(h, lo) ensures q in Since(g, lo) {
      var k: nat :| lo <= k < |h| && h[k].0 == q;
      assert g[k].0 == q;
    }
  }

  lemma DisplacedSnoc(h: History, e: (Prefix, U64), p: Prefix)
    requires Displaced(h, p) && e.0 != p
    ensures Displaced(h + [e], p)
  {
    forall l: nat | IsLast(h + [e], p, l) ensures |Since(h + [e], l + 1)| >= MAX_SENDERS {
      IsLastSnoc(h, e, p, l);
      SinceSnoc(h, e, l + 1);
      SubsetSize(Since(h, l + 1), Since(h + [e], l + 1));
    }
  }

  lemma NewerSnoc(h: History, e: (Prefix, U64), q: Prefix, p: Prefix)
    requires e.0 != p && (Newer(h, q, p) || e.0 == q)
    ensures Newer(h + [e], q, p)
  {
    forall l: nat | IsLast(h + [e], p, l) ensures q in Since(h + [e], l + 1) {
      IsLastSnoc(h, e, p, l);
      SinceSnoc(h, e, l + 1);
    }
  }

  lemma CountersSnoc(h: History, e: (Prefix, U64), p: Prefix, born: nat)
    requires born <= |h|
    ensures Counters(h + [e], p, born) == Counters(h, p, born) + (if e.0 == p then {e.1} else {})
  {
    var g := h + [e];
    assert g[|h|] == e;
    assert forall k :: 0 <= k < |h| ==> g[k] == h[k];
    forall c | c in Counters(h, p, born) ensures c in Counters(g, p, born) {
      var k: nat :| born <= k < |h| && h[k].0 == p && h[k].1 == c;
      assert g[k] == (p, c);
    }
  }

  /** The evicted prefix has been overtaken by all 255 others and the newcomer. */
  lemma EvictedDisplaced(k: Cache, h: History, p: Prefix, c: U64)
    requires CacheInv(k) && Ordered(k.lru, h) && p !in k.senders && |k.lru| == MAX_SENDERS
    ensures Displaced(h + [(p, c)], k.lru[MAX_SENDERS - 1])
  {
    var v, e := k.lru[MAX_SENDERS - 1], (p, c);
    forall l: nat | IsLast(h + [e], v, l) ensures |Since(h + [e], l + 1)| >= MAX_SENDERS {
      IsLastSnoc(h, e, v, l);
      SinceSnoc(h, e, l + 1);
      var others := Elements(k.lru[..MAX_SENDERS - 1]);
      ElementsSize(k.lru[..MAX_SENDERS - 1]);
      forall q | q in others ensures q in Since(h, l + 1) && q != p {
        var i :| 0 <= i < MAX_SENDERS - 1 && k.lru[..MAX_SENDERS - 1][i] == q;
        assert Newer(h, k.lru[i], k.lru[MAX_SENDERS - 1]);
        assert q in k.lru;
      }
      SubsetSize(others + {p}, Since(h + [e], l + 1));
    }
  }

  ghost function Elements(s: seq<Prefix>): set<Prefix> {
    set i | 0 <= i < |s| :: s[i]
  }

  lemma {:induction false} ElementsSize(s: seq<Prefix>)
    requires NoRepeats(s)
    ensures |Elements(s)| == |s|
  {
    if s != [] {
      ElementsSize(s[1..]);
      assert s == [s[0]] + s[1..];
      assert Elements(s) == Elements(s[1..]) + {s[0]};
      assert s[0] !in Elements(s[1..]);
    }
  }

  lemma OrderedFront(rest: seq<Prefix>, h: History, e: (Prefix, U64))
    requires Ordered(rest, h) && e.0 !in rest
    ensures Ordered([e.0] + rest, h + [e])
  {
    var lru := [e.0] + rest;
    forall i, j | 0 <= i < j < |lru| ensures Newer(h + [e], lru[i], lru[j]) {
      assert lru[j] == rest[j - 1] && rest[j - 1] in rest;
      assert i > 0 ==> lru[i] == rest[i - 1] && Newer(h, rest[i - 1], rest[j - 1]);
      NewerSnoc(h, e, lru[i], lru[j]);
    }
  }

  lemma {:induction false} OrderedWithout(lru: seq<Prefix>, h: History, p: Prefix)
    requires NoRepeats(lru) && Ordered(lru, h)
    ensures Ordered(Without(lru, p), h)
  {
    if lru != [] {
      var tail := lru[1..];
      assert Ordered(tail, h) by {
        forall i, j | 0 <= i < j < |tail| ensures Newer(h, tail[i], tail[j]) {
          assert Newer(h, lru[i + 1], lru[j + 1]);
        }
      }
      if lru[0] != p {
        OrderedWithout(tail, h, p);
        WithoutMembers(tail, p);
        var rest := Without(tail, p);
        forall j | 0 <= j < |rest| ensures Newer(h, lru[0], rest[j]) {
          assert rest[j] in rest && rest[j] in tail;
          var k :| 0 <= k < |tail| && tail[k] == rest[j];
          assert Newer(h, lru[0], lru[k + 1]);
        }
        var w := [lru[0]] + rest;
        forall i, j | 0 <= i < j < |w| ensures Newer(h, w[i], w[j]) {
          if i > 0 {
            assert Newer(h, rest[i - 1], rest[j - 1]);
          }
        }
      }
    }
  }

  lemma ResidentKept(k: Cache, k': Cache, h: History, e: (Prefix, U64), q: Prefix, born: nat)
    requires Resident(k, h, q, born) && q != e.0
    requires q in k'.senders && k'.senders[q] == k.senders[q]
    ensures Resident(k', h + [e], q, born)
  {
    CountersSnoc(h, e, q, born);
    assert (h + [e])[..born] == h[..born];
    assert (h + [e])[born] == h[born];
  }

  lemma ResidentGrown(k: Cache, h: History, p: Prefix, c: U64, born: nat)
    requires Resident(k, h, p, born) && Accept(k, p, c).1 == Accepted
    ensures Resident(Accept(k, p, c).0, h + [(p, c)], p, born)
  {
    CheckRefinesSet(k.senders[p], Counters(h, p, born), c);
    CountersSnoc(h, (p, c), p, born);
    assert (h + [(p, c)])[..born] == h[..born];
    assert (h + [(p, c)])[born] == h[born];
  }

  lemma ResidentNew(k: Cache, h: History, p: Prefix, c: U64)
    requires p !in k.senders && Displaced(h, p)
    ensures Resident(Insert(k, p, c), h + [(p, c)], p, |h|)
  {
    FirstRepresents(c);
    CountersSnoc(h, (p, c), p, |h|);
    assert (h + [(p, c)])[..|h|] == h;
    assert Counters(h, p, |h|) == {};
    assert Counters(h + [(p, c)], p, |h|) == {c};
  }

  lemma HitKeeps(k: Cache, h: History, p: Prefix, c: U64)
    requires Inv(k, h) && p in k.senders && Accept(k, p, c).1 == Accepted
    ensures Inv(Accept(k, p, c).0, h + [(p, c)])
  {
    hide Resident;
    var k', h' := Accept(k, p, c).0, h + [(p, c)];
    AcceptKeepsInv(k, p, c);
    OrderedWithout(k.lru, h, p);
    WithoutMembers(k.lru, p);
    OrderedFront(Without(k.lru, p), h, (p, c));
    assert k'.senders.Keys == k.senders.Keys;
    forall q | q in k'.senders ensures exists born :: Resident(k', h', q, born) {
      var born :| Resident(k, h, q, born);
      if q == p {
        ResidentGrown(k, h, p, c, born);
      } else {
        ResidentKept(k, k', h, (p, c), q, born);
      }
    }
    forall q | q !in k'.senders ensures Displaced(h', q) {
      DisplacedSnoc(h, (p, c), q);
    }
  }

  lemma OrderedPrefix(lru: seq<Prefix>, n: nat, h: History)
    requires Ordered(lru, h) && n <= |lru|
    ensures Ordered(lru[..n], h)
  {
  }

  lemma MissKeeps(k: Cache, h: History, p: Prefix, c: U64)
    requires Inv(k, h) && p !in k.senders
    ensures Inv(Insert(k, p, c), h + [(p, c)])
  {
    hide Resident, Newer;
    var r, k', h' := Room(k), Insert(k, p, c), h + [(p, c)];
    AcceptKeepsInv(k, p, c);
    RoomKeepsInv(k);
    OrderedPrefix(k.lru, |r.lru|, h);
    OrderedFront(r.lru, h, (p, c));
    ResidentNew(k, h, p, c);
    forall q | q in k'.senders ensures exists born :: Resident(k', h', q, born) {
      if q != p {
        var born :| Resident(k, h, q, born);
        ResidentKept(k, k', h, (p, c), q, born);
      }
    }
    forall q | q !in k'.senders ensures Displaced(h', q) {
      if q in k.senders {
        EvictedDisplaced(k, h, p, c);
      } else {
        DisplacedSnoc(h, (p, c), q);
      }
    }
  }

  lemma {:induction false} RunInv(requests: seq<(Prefix, U64)>)
    ensures Inv(Run(requests).0, Run(requests).1)
  {
    if requests != [] {
      hide Inv, Insert;
      var pre := requests[..|requests| - 1];
      var (k, h) := Run(pre);
      var (p, c) := requests[|requests| - 1];
      RunInv(pre);
      if p !in k.senders {
        MissKeeps(k, h, p, c);
      } else if Accept(k, p, c).1 == Accepted {
        HitKeeps(k, h, p, c);
      }
    } else {
      assert Inv(Cache(map[], []), []);
    }
  }

  /** Between two consecutive accepts `l` and `t` of prefix `p` in `i..j`, at least 256 other
      prefixes were accepted. */
  ghost predicate Gap(h: History, p: Prefix, i: nat, j: nat) {
    exists l: nat, t: nat :: i <= l < t <= j && GapAt(h, p, l, t)
  }

  ghost predicate GapAt(h: History, p: Prefix, l: nat, t: nat) {
    t < |h| && h[t].0 == p && IsLast(h[..t], p, l) && |Since(h[..t], l + 1)| >= MAX_SENDERS
  }

  lemma GapKept(h: History, e: (Prefix, U64), p: Prefix, i: nat, j: nat)
    requires Gap(h, p, i, j)
    ensures Gap(h + [e], p, i, j)
  {
    var l: nat, t: nat :| i <= l < t <= j && GapAt(h, p, l, t);
    assert (h + [e])[..t] == h[..t] && (h + [e])[t] == h[t];
    assert GapAt(h + [e], p, l, t);
  }

  lemma {:induction false} LastExists(h: History, p: Prefix, i: nat) returns (l: nat)
    requires i < |h| && h[i].0 == p
    ensures i <= l && IsLast(h, p, l)
    decreases |h| - i
  {
    l := i;
    if k :| i < k < |h| && h[k].0 == p {
      l := LastExists(h, p, k);
    }
  }

  /** A displaced prefix that is accepted at `t` leaves a gap behind every earlier accept. */
  lemma DisplacedGap(h: History, p: Prefix, i: nat, t: nat)
    requires i < t < |h| && h[i].0 == p && h[t].0 == p && Displaced(h[..t], p)
    ensures Gap(h, p, i, t)
  {
    var l := LastExists(h[..t], p, i);
    assert GapAt(h, p, l, t);
  }

  lemma GapSinceBirth(h: History, e: (Prefix, U64), p: Prefix, i: nat, born: nat)
    requires i < born < |h| && h[i].0 == p && h[born].0 == p && Displaced(h[..born], p)
    ensures Gap(h + [e], p, i, |h|)
  {
    var h' := h + [e];
    assert h'[..born] == h[..born] && h'[born] == h[born] && h'[i] == h[i];
    DisplacedGap(h', p, i, born);
    var l: nat, t: nat :| i <= l < t <= born && GapAt(h', p, l, t);
    assert GapAt(h', p, l, t) && t <= |h|;
  }

  lemma ReplayNeedsGap(k: Cache, h: History, p: Prefix, c: U64, i: nat)
    requires Inv(k, h) && Accept(k, p, c).1 == Accepted && i < |h| && h[i] == (p, c)
    ensures Gap(h + [(p, c)], p, i, |h|)
  {
    var h' := h + [(p, c)];
    assert h'[i] == h[i];
    if p in k.senders {
      var born: nat :| Resident(k, h, p, born);
      CheckRefinesSet(k.senders[p], Counters(h, p, born), c);
      assert born <= i ==> c in Counters(h, p, born);
      GapSinceBirth(h, (p, c), p, i, born);
    } else {
      assert h'[..|h|] == h;
      DisplacedGap(h', p, i, |h|);
    }
  }

  /** No replay inside the cache's memory: in every run of requests, the same prefix and counter
      are accepted twice only if, between two consecutive accepts of that prefix in between, at
      least 256 other prefixes were accepted. */
  lemma {:induction false} AcceptedTwiceOnlyAfterGap(requests: seq<(Prefix, U64)>, i: nat, j: nat)
    requires var h := Run(requests).1; i < j < |h| && h[i] == h[j]
    ensures Gap(Run(requests).1, Run(requests).1[i].0, i, j)
  {
    hide Gap, Inv, Accept;
    var pre := requests[..|requests| - 1];
    var (k, h) := Run(pre);
    var (p, c) := requests[|requests| - 1];
    RunInv(pre);
    if Accept(k, p, c).1 == Accepted {
      if j == |h| {
        ReplayNeedsGap(k, h, p, c, i);
      } else {
        assert (h + [(p, c)])[i] == h[i] && (h + [(p, c)])[j] == h[j];
        AcceptedTwiceOnlyAfterGap(pre, i, j);
        GapKept(h, (p, c), h[i].0, i, j);
      }
    } else {
      AcceptedTwiceOnlyAfterGap(pre, i, j);
    }
  }

  /** Records displaced by fewer than 64 positions are all accepted: a counter not accepted since
      its prefix became resident and less than 64 below the highest one is never refused. */
  lemma LateRecordsAccepted(requests: seq<(Prefix, U64)>, p: Prefix, c: U64, born: nat)
    requires var (k, h) := Run(requests);
             Resident(k, h, p, born) && c !in Counters(h, p, born) && c > k.senders[p].highest - WINDOW
    ensures Accept(Run(requests).0, p, c).1 == Accepted
  {
    var (k, h) := Run(requests);
    CheckRefinesSet(k.senders[p], Counters(h, p, born), c);
  }

  // -------------------------------------------------------------- as an object

  class ReplayCache {
    var senders: map<Prefix, Sender>
    var lru: seq<Prefix>

    ghost function View(): Cache
      reads this
    {
      Cache(senders, lru)
    }

    constructor ()
      ensures CacheInv(View()) && View() == Cache(map[], [])
    {
      senders, lru := map[], [];
    }

    /** Every authenticated record passes through here; a refused one changes nothing. */
    method AcceptRecord(prefix: Prefix, counter: U64) returns (v: Verdict)
      requires CacheInv(View())
      modifies this
      ensures CacheInv(View())
      ensures (View(), v) == Accept(old(View()), prefix, counter)
    {
      hide CacheInv, One, Or, Shl, And, NonZero, MoveToFront, Insert;
      AcceptKeepsInv(View(), prefix, counter);
      if prefix !in senders {
        InsertPrefix(prefix, counter);
        return Accepted;
      }
      var st := senders[prefix];
      if counter > st.highest {
        var shift := counter - st.highest;
        var seen := if shift >= WINDOW then One() else Or(Shl(st.seen, shift), One());
        senders := senders[prefix := Sender(counter, seen)];
        lru := MoveToFront(lru, prefix);
        return Accepted;
      }
      var age := st.highest - counter;
      if age >= WINDOW {
        return TooOld;
      }
      var mask := Shl(One(), age);
      if NonZero(And(st.seen, mask)) {
        return Duplicate;
      }
      senders := senders[prefix := Sender(st.highest, Or(st.seen, mask))];
      lru := MoveToFront(lru, prefix);
      return Accepted;
    }

    method InsertPrefix(prefix: Prefix, counter: U64)
      requires CacheInv(View())
      modifies this
      ensures View() == Insert(old(View()), prefix, counter)
    {
      if |senders| >= MAX_SENDERS {
        var oldest := lru[|lru| - 1];
        senders := senders - {oldest};
        lru := lru[..|lru| - 1];
      }
      lru := [prefix] + lru;
      senders := senders[prefix := Sender(counter, One())];
    }
  }
}
