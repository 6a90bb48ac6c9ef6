/** Why recognised arrivals are needed for order: any other arrival that the buffer accepts makes it
    hand packets on out of order as soon as the packets still missing arrive. */
module OrderNeeded {
  import opened Bytes
  import opened ReorderBuffer
  import opened ReorderProofs
  import opened BufferMap
  import opened StreamOrder

  /** Further arrivals at a buffer. */
  ghost function Feed(b: Buffer<nat>, xs: seq<nat>): (Buffer<nat>, seq<nat>)
    decreases |xs|
  {
    if xs == [] then (b, [])
    else
      var (b1, more) := Push(b, Low16(xs[0]), xs[0]);
      var (b2, rest) := Feed(b1, xs[1..]);
      (b2, more + rest)
  }

  lemma {:induction false} RunFeed(ns: seq<nat>, xs: seq<nat>)
    ensures var (b, out) := Run(Tagged(ns));
            Run(Tagged(ns + xs)) == (Feed(b, xs).0, out + Feed(b, xs).1)
    decreases |xs|
  {
    hide Push, Run, Tagged, Low16;
    if xs == [] {
      assert ns + xs == ns && Run(Tagged(ns)).1 + [] == Run(Tagged(ns)).1;
    } else {
      var k, ns' := |ns|, ns + [xs[0]];
      assert ns'[..k] == ns && ns'[..k + 1] == ns' && ns + xs == ns' + xs[1..];
      RunSnoc(ns', k);
      RunFeed(ns', xs[1..]);
      var (b, out) := Run(Tagged(ns));
      var (b1, more) := Push(b, Low16(xs[0]), xs[0]);
      assert (out + more) + Feed(b1, xs[1..]).1 == out + (more + Feed(b1, xs[1..]).1);
    }
  }

  lemma {:induction false} FeedMap(b: Buffer<nat>, xs: seq<nat>, f: nat -> nat)
    requires forall i :: 0 <= i < |xs| ==> f(xs[i]) == xs[i]
    ensures Feed(MapBuffer(b, f), xs) == (MapBuffer(Feed(b, xs).0, f), MapSeq(Feed(b, xs).1, f))
    decreases |xs|
  {
    hide Push, Low16, MapBuffer, MapSeq;
    if xs == [] {
      assert MapSeq<nat, nat>([], f) == [] by { MapNothing(f); }
    } else {
      PushMap(b, f, Low16(xs[0]), xs[0]);
      var (b1, more) := Push(b, Low16(xs[0]), xs[0]);
      FeedMap(b1, xs[1..], f);
      MapAppend(more, Feed(b1, xs[1..]).1, f);
    }
  }

  lemma MapNothing(f: nat -> nat)
    ensures MapSeq<nat, nat>([], f) == []
  {
  }

  lemma {:induction false} FeedSnoc(b: Buffer<nat>, xs: seq<nat>, x: nat)
    ensures var (b1, out) := Feed(b, xs);
            var (b2, more) := Push(b1, Low16(x), x);
            Feed(b, xs + [x]) == (b2, out + more)
    decreases |xs|
  {
    hide Push, Low16;
    if xs == [] {
      assert xs + [x] == [x] && [x][1..] == [];
      var (b1, more) := Push(b, Low16(x), x);
      assert Feed(b1, []) == (b1, []);
      assert more + [] == more && [] + more == more;
    } else {
      assert (xs + [x])[0] == xs[0] && (xs + [x])[1..] == xs[1..] + [x];
      var (b0, first) := Push(b, Low16(xs[0]), xs[0]);
      FeedSnoc(b0, xs[1..], x);
      var (b1, out) := Feed(b0, xs[1..]);
      var more := Push(b1, Low16(x), x).1;
      assert first + (out + more) == (first + out) + more;
    }
  }

  ghost predicate Below(waiting: set<nat>, bound: nat) {
    forall x :: x in waiting ==> x < bound
  }

  /** The next missing packet is handed on at once, with what waits right behind it. */
  lemma HeadPush(b: Buffer<nat>, waiting: set<nat>, pos: nat, bound: nat) returns (h: nat)
    requires Mirrors(b, waiting, pos) && Below(waiting, bound) && pos < bound
    ensures pos < h <= bound
    ensures var (b', more) := Push(b, Low16(pos), pos);
            && more == Range(pos, h)
            && Mirrors(b', Waiting(waiting + {pos}, h), h)
            && Below(Waiting(waiting + {pos}, h), bound)
    ensures forall v :: v in waiting ==> v < h || v in Waiting(waiting + {pos}, h)
  {
    hide Push, Mirrors, Low16;
    h := PushMirrors(b, waiting, pos, pos);
    assert h == pos ==> pos in waiting + {pos};
    assert h > bound ==> bound in waiting + {pos};
  }

  /** Feeding the missing packets in turn brings out the waiting packet `v`. */
  lemma {:induction false} CatchUp(b: Buffer<nat>, waiting: set<nat>, pos: nat, v: nat, bound: nat)
    returns (xs: seq<nat>, waiting': set<nat>, pos': nat)
    requires Mirrors(b, waiting, pos) && Below(waiting, bound) && v in waiting && pos < v
    ensures forall i :: 0 <= i < |xs| ==> pos <= xs[i] < v
    ensures v in Feed(b, xs).1 && v < pos' <= bound
    ensures Mirrors(Feed(b, xs).0, waiting', pos') && Below(waiting', bound)
    decreases v - pos
  {
    hide Push, Mirrors, Low16;
    var h := HeadPush(b, waiting, pos, bound);
    var (b1, more) := Push(b, Low16(pos), pos);
    var w1 := Waiting(waiting + {pos}, h);
    FeedSnoc(b, [], pos);
    assert [] + [pos] == [pos] && [] + more == more;
    if v < h {
      assert Range(pos, h)[v - pos] == v;
      xs, waiting', pos' := [pos], w1, h;
    } else {
      assert v in w1;
      var rest;
      rest, waiting', pos' := CatchUp(b1, w1, h, v, bound);
      xs := [pos] + rest;
      assert xs[1..] == rest;
      assert Feed(b, xs) == (Feed(b1, rest).0, more + Feed(b1, rest).1);
    }
  }

  /** The number that packet `n` is taken for. */
  function TakenFor(n: nat, pos: nat): nat {
    pos + (n - pos) % 0x1_0000
  }

  function Swap(v: nat, n: nat): nat -> nat {
    x => if x == v then n else x
  }

  lemma TakenForKey(n: nat, pos: nat)
    ensures Low16(TakenFor(n, pos)) == Low16(n)
    ensures TakenFor(n, pos) != n ==> TakenFor(n, pos) + 0x1_0000 <= n || n + 0x1_0000 <= TakenFor(n, pos)
  {
  }

  /** A packet taken for another goes where that one would have gone. */
  lemma PushMistaken(b: Buffer<nat>, waiting: set<nat>, pos: nat, n: nat)
    requires Mirrors(b, waiting, pos) && (n - pos) % 0x1_0000 < HALF
    ensures var v := TakenFor(n, pos);
            var (b', more) := Push(b, Low16(v), v);
            Push(b, Low16(n), n) == (MapBuffer(b', Swap(v, n)), MapSeq(more, Swap(v, n)))
  {
    hide Mirrors;
    var v := TakenFor(n, pos);
    var f, s := Swap(v, n), Low16(n);
    TakenForKey(n, pos);
    var bare := b.(pkts := b.pkts - {s});
    assert MapBuffer(bare, f) == bare by { OthersDiffer(b, waiting, pos, v); }
    StartedAt(b, waiting, pos);
    SubLow(n, pos);
    PushOverwrites(b, s, v);
    PushOverwrites(b, s, n);
    hide Push, Low16;
    PushMap(bare, f, s, v);
  }

  lemma OthersDiffer(b: Buffer<nat>, waiting: set<nat>, pos: nat, v: nat)
    requires Mirrors(b, waiting, pos)
    ensures forall k :: k in b.pkts && k != Low16(v) ==> b.pkts[k] != v
  {
  }

  lemma PushOverwrites(b: Buffer<nat>, s: U16, n: nat)
    ensures !SeqLess(s, Starting(b, s).next) ==> Push(b.(pkts := b.pkts - {s}), s, n) == Push(b, s, n)
  {
    assert (b.pkts - {s})[s := n] == b.pkts[s := n];
  }

  ghost predicate OutOfOrder(out: seq<nat>) {
    exists i, j :: 0 <= i < j < |out| && out[j] <= out[i]
  }

  lemma SwapShows(out: seq<nat>, before: seq<nat>, after: seq<nat>, v: nat, n: nat)
    requires out != [] && v in before && after != [] && after[0] != v
    requires n < out[|out| - 1] || n > after[0]
    ensures OutOfOrder(out + MapSeq(before + after, Swap(v, n)))
  {
    var all := out + MapSeq(before + after, Swap(v, n));
    var i :| 0 <= i < |before| && before[i] == v;
    assert all[|out| - 1] == out[|out| - 1] && all[|out| + i] == n && all[|out| + |before|] == after[0];
  }

  /** The virtual run, in which the packet is the one it is taken for: after the packets still
      missing, that one has been handed on and the next one comes out after it. */
  lemma VirtualRun(b: Buffer<nat>, waiting: set<nat>, pos: nat, v: nat)
    returns (xs: seq<nat>, before: seq<nat>, after: seq<nat>)
    requires Mirrors(b, waiting, pos) && pos <= v < pos + HALF
    ensures forall i :: 0 <= i < |xs| ==> pos <= xs[i] <= pos + HALF && xs[i] != v
    ensures var (b', more) := Push(b, Low16(v), v);
            more + Feed(b', xs).1 == before + after
    ensures v in before && after != [] && v < after[0] <= pos + HALF
  {
    hide Push, Mirrors, Low16;
    var bound := pos + HALF;
    LowestWaiting(b, waiting, pos);
    var from, h := AcceptedRun(b, waiting, pos, v);
    var (b', more) := Push(b, Low16(v), v);
    assert h > bound ==> bound in waiting + {v};
    var w, p, ys := Waiting(waiting + {v}, h), h, [];
    if v < h {
      assert Range(from, h)[v - from] == v;
    } else {
      ys, w, p := CatchUp(b', w, h, v, bound);
    }
    var (b1, rest) := Feed(b', ys);
    before := more + rest;
    var h2 := HeadPush(b1, w, p, bound + 1);
    after := Push(b1, Low16(p), p).1;
    assert after[0] == p;
    xs := ys + [p];
    FeedSnoc(b', ys, p);
    assert more + (rest + after) == before + after;
  }

  lemma FeedMistaken(b: Buffer<nat>, waiting: set<nat>, pos: nat, n: nat)
    returns (xs: seq<nat>, before: seq<nat>, after: seq<nat>)
    requires Mirrors(b, waiting, pos) && (n - pos) % 0x1_0000 < HALF
    ensures forall i :: 0 <= i < |xs| ==> pos <= xs[i] <= pos + HALF
    ensures var v := TakenFor(n, pos);
            && Feed(b, [n] + xs).1 == MapSeq(before + after, Swap(v, n))
            && v in before && after != [] && v < after[0] <= pos + HALF
  {
    hide Push, Mirrors, Low16, MapBuffer, MapSeq;
    var v := TakenFor(n, pos);
    xs, before, after := VirtualRun(b, waiting, pos, v);
    var (b', more) := Push(b, Low16(v), v);
    PushMistaken(b, waiting, pos, n);
    FeedMap(b', xs, Swap(v, n));
    MapAppend(more, Feed(b', xs).1, Swap(v, n));
    assert ([n] + xs)[1..] == xs;
  }

  /** An arrival that is accepted for another number breaks the order as soon as packets still
      missing arrive: for each such arrival after a run of recognised ones there are packets, none
      further than half the sequence space ahead, after which deliveries are out of order. */
  lemma MistakenBreaksOrder(ns: seq<nat>, n: nat) returns (xs: seq<nat>)
    requires ns != [] && AllRecognised(ns)
    requires var out := Run(Tagged(ns)).1; out != [] && !Recognised(n, NextAfter(out))
    ensures var pos := NextAfter(Run(Tagged(ns)).1); forall i :: 0 <= i < |xs| ==> pos <= xs[i] <= pos + HALF
    ensures OutOfOrder(Run(Tagged(ns + ([n] + xs))).1)
  {
    hide AllRecognised, Run, Tagged, Mirrors, Low16, MapSeq, Ascending, Feed, OutOfOrder;
    var (b, out) := Run(Tagged(ns));
    var waiting, pos := RunOrdered(ns);
    TakenForKey(n, pos);
    var before, after;
    xs, before, after := FeedMistaken(b, waiting, pos, n);
    RunFeed(ns, [n] + xs);
    SwapShows(out, before, after, TakenFor(n, pos), n);
  }
}
