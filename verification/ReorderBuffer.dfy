/** The RTP reorder buffer: packets keyed by their 16-bit sequence number are handed on in order,
    and a hole is given up once more than a full window waits behind it. */
module ReorderBuffer {
  import opened Bytes

  const REORDER_WINDOW := 256
  const HALF := 0x8000

  /** The wrapping difference `a - b` on 16 bits. */
  function Sub16(a: U16, b: U16): U16 {
    (a - b) % 0x1_0000
  }

  /** Serial comparison: bit 15 of the wrapping difference is set. */
  predicate SeqLess(a: U16, b: U16) {
    (Sub16(a, b) / HALF) % 2 != 0
  }

  datatype Buffer<P> = Buffer(pkts: map<U16, P>, next: U16, started: bool)

  const EMPTY_NEXT: U16 := 0

  function Empty<P>(): Buffer<P> {
    Buffer(map[], EMPTY_NEXT, false)
  }

  /** How far ahead of `next` a sequence number lies. */
  function Ahead<P>(b: Buffer<P>, s: U16): U16 {
    Sub16(s, b.next)
  }

  ghost predicate IsOldest<P>(b: Buffer<P>, s: U16) {
    s in b.pkts && forall t :: t in b.pkts ==> Ahead(b, s) <= Ahead(b, t)
  }

  function Drain<P>(b: Buffer<P>): (Buffer<P>, seq<P>)
    decreases |b.pkts|
  {
    if b.next !in b.pkts then (b, [])
    else
      assert (b.pkts - {b.next}).Keys == b.pkts.Keys - {b.next};
      var (b', out) := Drain(Buffer(b.pkts - {b.next}, Succ16(b.next), b.started));
      (b', [b.pkts[b.next]] + out)
  }

  function Starting<P>(b: Buffer<P>, s: U16): Buffer<P> {
    if b.started then b else b.(started := true, next := s)
  }

  ghost function Skip<P>(b: Buffer<P>): (r: Buffer<P>)
    ensures r.pkts == b.pkts && r.started == b.started
    ensures |b.pkts| <= REORDER_WINDOW ==> r == b
    ensures |b.pkts| > REORDER_WINDOW ==> IsOldest(b, r.next)
  {
    if |b.pkts| <= REORDER_WINDOW then b
    else
      OldestExists(b);
      var s :| IsOldest(b, s);
      b.(next := s)
  }

  /** What pushing packet `p` with sequence number `s` does: the new buffer and what it delivers. */
  ghost function Push<P>(b: Buffer<P>, s: U16, p: P): (Buffer<P>, seq<P>) {
    var b1 := Starting(b, s);
    if SeqLess(s, b1.next) then (b1, []) else Drain(Skip(b1.(pkts := b1.pkts[s := p])))
  }

  lemma {:induction false} OldestAmong<P>(b: Buffer<P>, keys: set<U16>) returns (s: U16)
    requires keys != {}
    ensures s in keys && forall t :: t in keys ==> Ahead(b, s) <= Ahead(b, t)
    decreases |keys|
  {
    hide Ahead;
    s :| s in keys;
    if keys - {s} != {} {
      var r := OldestAmong(b, keys - {s});
      if Ahead(b, r) < Ahead(b, s) {
        s := r;
      }
    }
  }

  lemma OldestExists<P>(b: Buffer<P>)
    requires |b.pkts| > 0
    ensures exists s :: IsOldest(b, s)
  {
    assert b.pkts.Keys != {};
    var s := OldestAmong(b, b.pkts.Keys);
    assert IsOldest(b, s);
  }

  // ------------------------------------------------------ serial-order safety

  /** Buffered keys lie ahead of `next` within half the sequence space. */
  ghost predicate InHalf<P>(b: Buffer<P>) {
    forall s :: s in b.pkts ==> Ahead(b, s) < HALF
  }

  /** The invariant between pushes: nothing deliverable is held back, and the window is bounded. */
  ghost predicate Inv<P>(b: Buffer<P>) {
    && InHalf(b) && b.next !in b.pkts && |b.pkts| <= REORDER_WINDOW
    && (!b.started ==> b.pkts == map[])
  }

  /** On numbers within half the space ahead of a common origin, serial comparison is the
      comparison of their distances, so it is a strict total order. */
  lemma SeqLessIsOrder(origin: U16, a: U16, b: U16)
    requires Sub16(a, origin) < HALF && Sub16(b, origin) < HALF
    ensures SeqLess(a, b) <==> Sub16(a, origin) < Sub16(b, origin)
    ensures Sub16(a, origin) == Sub16(b, origin) ==> a == b
  {
    Sub16Cases(a, origin);
    Sub16Cases(b, origin);
    Sub16Cases(a, b);
  }

  lemma Sub16Cases(a: U16, b: U16)
    ensures Sub16(a, b) == if a >= b then a - b else a - b + 0x1_0000
  {
  }

  /** skipToOldest: the scan meets the keys in any order and always ends at the same one. */
  method SkipToOldest<P>(b: Buffer<P>) returns (oldest: U16)
    requires InHalf(b) && |b.pkts| > 0
    ensures IsOldest(b, oldest)
    ensures forall s :: IsOldest(b, s) ==> s == oldest
  {
    var rest := b.pkts.Keys;
    var first := true;
    oldest := 0;
    while rest != {}
      invariant rest <= b.pkts.Keys && (first <==> rest == b.pkts.Keys)
      invariant !first ==> oldest in b.pkts
      invariant !first ==> forall t :: t in b.pkts && t !in rest ==> Ahead(b, oldest) <= Ahead(b, t)
      decreases rest
    {
      var s :| s in rest;
      rest := rest - {s};
      if !first {
        SeqLessIsOrder(b.next, s, oldest);
      }
      if first || SeqLess(s, oldest) {
        oldest := s;
        first := false;
      }
      assert s !in rest && s in b.pkts;
    }
    assert b.pkts.Keys != {};
    forall s | IsOldest(b, s) ensures s == oldest {
      SeqLessIsOrder(b.next, s, oldest);
    }
  }

  lemma AheadAfter(origin: U16, next: U16, s: U16)
    requires Sub16(next, origin) <= Sub16(s, origin)
    ensures Sub16(s, next) == Sub16(s, origin) - Sub16(next, origin)
  {
    Sub16Cases(next, origin);
    Sub16Cases(s, origin);
    Sub16Cases(s, next);
  }

  lemma SkipKeepsHalf<P>(b: Buffer<P>)
    requires InHalf(b)
    ensures InHalf(Skip(b))
  {
    if |b.pkts| > REORDER_WINDOW {
      var b' := Skip(b);
      forall s | s in b'.pkts ensures Ahead(b', s) < HALF {
        AheadAfter(b.next, b'.next, s);
      }
    }
  }

  lemma StepKeepsHalf<P>(b: Buffer<P>)
    requires InHalf(b) && b.next in b.pkts
    ensures InHalf(Buffer(b.pkts - {b.next}, Succ16(b.next), b.started))
  {
    var b' := Buffer(b.pkts - {b.next}, Succ16(b.next), b.started);
    forall s | s in b'.pkts ensures Ahead(b', s) < HALF {
      Sub16Cases(s, b.next);
      Sub16Cases(s, Succ16(b.next));
    }
  }

  lemma {:induction false} DrainKeeps<P>(b: Buffer<P>)
    requires InHalf(b)
    ensures InHalf(Drain(b).0) && Drain(b).0.next !in Drain(b).0.pkts
    ensures Drain(b).0.started == b.started
    ensures |Drain(b).0.pkts| + |Drain(b).1| == |b.pkts|
    decreases |b.pkts|
  {
    if b.next in b.pkts {
      StepKeepsHalf(b);
      assert (b.pkts - {b.next}).Keys == b.pkts.Keys - {b.next};
      DrainKeeps(Buffer(b.pkts - {b.next}, Succ16(b.next), b.started));
    }
  }

  lemma AcceptedAhead<P>(b: Buffer<P>, s: U16)
    requires !SeqLess(s, b.next)
    ensures Ahead(b, s) < HALF
  {
  }

  lemma InsertSize<P>(m: map<U16, P>, s: U16, p: P)
    ensures |m[s := p]| == |m| + (if s in m then 0 else 1)
  {
    assert m[s := p].Keys == m.Keys + {s};
  }

  /** Every push keeps at most a window of packets, none of them deliverable, all within half the
      sequence space; a push that opens the 257th slot delivers. */
  lemma PushKeepsInv<P>(b: Buffer<P>, s: U16, p: P)
    requires Inv(b)
    ensures Inv(Push(b, s, p).0) && Push(b, s, p).0.started
  {
    var b1 := Starting(b, s);
    if !SeqLess(s, b1.next) {
      var b2 := b1.(pkts := b1.pkts[s := p]);
      AcceptedAhead(b1, s);
      InsertSize(b1.pkts, s, p);
      SkipKeepsHalf(b2);
      DrainKeeps(Skip(b2));
    }
  }

  /** Bounded stall: an accepted packet with a new number either is followed by a delivery in the
      same push or takes one of the window's free slots. */
  lemma StallBound<P>(b: Buffer<P>, s: U16, p: P)
    requires Inv(b) && !SeqLess(s, Starting(b, s).next) && s !in b.pkts && Push(b, s, p).1 == []
    ensures |Push(b, s, p).0.pkts| == |b.pkts| + 1 <= REORDER_WINDOW
  {
    var b1 := Starting(b, s);
    var b2 := b1.(pkts := b1.pkts[s := p]);
    AcceptedAhead(b1, s);
    InsertSize(b1.pkts, s, p);
    SkipKeepsHalf(b2);
    DrainKeeps(Skip(b2));
    PushKeepsInv(b, s, p);
  }

  // ------------------------------------------------------------------- runs

  /** The buffer and everything delivered after pushing `arrivals` in order. */
  ghost function Run<P>(arrivals: seq<(U16, P)>): (Buffer<P>, seq<P>) {
    if arrivals == [] then (Empty(), [])
    else
      var (b, out) := Run(arrivals[..|arrivals| - 1]);
      var (s, p) := arrivals[|arrivals| - 1];
      var (b', more) := Push(b, s, p);
      (b', out + more)
  }

  lemma {:induction false} RunInv<P>(arrivals: seq<(U16, P)>)
    ensures Inv(Run(arrivals).0) && (arrivals != [] ==> Run(arrivals).0.started)
  {
    if arrivals != [] {
      RunInv(arrivals[..|arrivals| - 1]);
      PushKeepsInv(Run(arrivals[..|arrivals| - 1]).0, arrivals[|arrivals| - 1].0, arrivals[|arrivals| - 1].1);
    }
  }

  /** Pushes `from..` of a run are all accepted, new and deliver nothing. */
  ghost predicate Stalls<P>(arrivals: seq<(U16, P)>, from: nat) {
    forall k :: from <= k < |arrivals| ==> StallsAt(arrivals, k)
  }

  ghost predicate StallsAt<P>(arrivals: seq<(U16, P)>, k: nat)
    requires k < |arrivals|
  {
    var b := Run(arrivals[..k]).0;
    var (s, p) := arrivals[k];
    !SeqLess(s, Starting(b, s).next) && s !in b.pkts && Push(b, s, p).1 == []
  }

  /** In every run, at most 256 accepted new packets in a row can pass without a delivery. */
  lemma {:induction false} StallIsBounded<P>(arrivals: seq<(U16, P)>, from: nat)
    requires from <= |arrivals| && Stalls(arrivals, from)
    ensures |Run(arrivals).0.pkts| == |Run(arrivals[..from]).0.pkts| + (|arrivals| - from)
    ensures |arrivals| - from <= REORDER_WINDOW
  {
    RunInv(arrivals);
    if from < |arrivals| {
      var k := |arrivals| - 1;
      var pre := arrivals[..k];
      assert pre[..from] == arrivals[..from];
      forall j | from <= j < |pre| ensures StallsAt(pre, j) {
        assert StallsAt(arrivals, j);
        assert pre[..j] == arrivals[..j];
      }
      StallIsBounded(pre, from);
      RunInv(pre);
      assert StallsAt(arrivals, k);
      StallBound(Run(pre).0, arrivals[k].0, arrivals[k].1);
    } else {
      assert arrivals[..from] == arrivals;
    }
  }
}
