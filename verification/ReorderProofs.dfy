/** What the reorder buffer guarantees about the order of delivery, against unbounded packet numbers. */
module ReorderProofs {
  import opened Bytes
  import opened ReorderBuffer

  function Low16(n: nat): U16 {
    n % 0x1_0000
  }

  /** The numbers `lo, lo + 1, ..., hi - 1`. */
  function Range(lo: nat, hi: nat): seq<nat>
    requires lo <= hi
  {
    seq(hi - lo, i requires 0 <= i => lo + i)
  }

  lemma Low16Succ(n: nat)
    ensures Low16(n + 1) == Succ16(Low16(n))
  {
  }

  lemma Low16Ahead(pos: nat, n: nat)
    requires pos <= n < pos + 0x1_0000
    ensures Sub16(Low16(n), Low16(pos)) == n - pos
  {
    Sub16Cases(Low16(n), Low16(pos));
  }

  // ------------------------------------------- deliveries move forward, on 16 bits

  /** Every buffered packet is stored under its own sequence number. */
  ghost predicate KeyedBy<P>(b: Buffer<P>, num: P -> U16) {
    forall k :: k in b.pkts ==> num(b.pkts[k]) == k
  }

  lemma {:induction false} DrainNumbers<P>(b: Buffer<P>, num: P -> U16, pos: nat)
    requires KeyedBy(b, num) && b.next == Low16(pos)
    ensures var (b', out) := Drain(b);
            && KeyedBy(b', num) && b'.next == Low16(pos + |out|)
            && forall i :: 0 <= i < |out| ==> num(out[i]) == Low16(pos + i)
    decreases |b.pkts|
  {
    hide Low16, Succ16;
    if b.next in b.pkts {
      Low16Succ(pos);
      var b1 := Buffer(b.pkts - {b.next}, Succ16(b.next), b.started);
      assert b1.pkts.Keys == b.pkts.Keys - {b.next};
      DrainNumbers(b1, num, pos + 1);
      var out := Drain(b1).1;
      assert Drain(b).1 == [b.pkts[b.next]] + out;
      forall i | 0 < i < |out| + 1 ensures num(Drain(b).1[i]) == Low16(pos + i) {
        assert num(out[i - 1]) == Low16(pos + 1 + (i - 1));
      }
    }
  }

  lemma Low16Offset(pos: nat, s: U16)
    ensures Low16(pos + Sub16(s, Low16(pos))) == s
  {
    Sub16Cases(s, Low16(pos));
  }

  lemma SkipNumbers<P>(b: Buffer<P>, pos: nat) returns (from: nat)
    requires InHalf(b) && b.next == Low16(pos)
    ensures Skip(b).next == Low16(from) && pos <= from < pos + HALF
  {
    hide Low16, Sub16, Skip;
    if |b.pkts| > REORDER_WINDOW {
      var s := Skip(b).next;
      from := pos + Sub16(s, b.next);
      Low16Offset(pos, s);
      assert Ahead(b, s) < HALF;
    } else {
      from := pos;
    }
  }

  lemma PushNumbers<P>(b: Buffer<P>, s: U16, p: P, num: P -> U16, pos: nat) returns (from: nat)
    requires Inv(b) && b.started && KeyedBy(b, num) && b.next == Low16(pos) && num(p) == s
    ensures pos <= from < pos + HALF
    ensures var (b', more) := Push(b, s, p);
            && KeyedBy(b', num)
            && (forall i :: 0 <= i < |more| ==> num(more[i]) == Low16(from + i))
            && (more != [] ==> b'.next == Low16(from + |more|))
            && (more == [] ==> b'.next == Low16(pos))
  {
    hide Low16, Succ16;
    from := pos;
    if !SeqLess(s, b.next) {
      var b2 := b.(pkts := b.pkts[s := p]);
      AcceptedAhead(b, s);
      from := SkipNumbers(b2, pos);
      DrainNumbers(Skip(b2), num, from);
      SkipDelivers(b2);
    }
  }

  /** A skip is always followed by a delivery. */
  lemma SkipDelivers<P>(b: Buffer<P>)
    requires InHalf(b)
    ensures Drain(Skip(b)).1 == [] ==> Skip(b) == b
  {
  }

  // ------------------------------------------------- when order is restored

  /** The arrival of packets of an unbounded stream, each under the low bits of its number. */
  function Tagged(ns: seq<nat>): seq<(U16, nat)> {
    seq(|ns|, i requires 0 <= i < |ns| => (Low16(ns[i]), ns[i]))
  }

  ghost function Seen(ns: seq<nat>): set<nat> {
    set i | 0 <= i < |ns| :: ns[i]
  }

  /** The lowest number from `start` on that has not arrived. */
  ghost predicate IsHole(seen: set<nat>, start: nat, h: nat) {
    start <= h && h !in seen && forall x :: start <= x < h ==> x in seen
  }

  ghost function Waiting(seen: set<nat>, h: nat): set<nat> {
    set n | n in seen && n > h
  }

  /** No packet arrives half the sequence space or more away from the current hole, and never do
      more than 256 packets wait behind it. */
  ghost predicate Timely(ns: seq<nat>)
    requires ns != []
  {
    forall k, h :: 1 <= k <= |ns| && IsHole(Seen(ns[..k]), ns[0], h) ==> TimelyAt(ns, k, h)
  }

  ghost predicate TimelyAt(ns: seq<nat>, k: nat, h: nat)
    requires 1 <= k <= |ns|
  {
    && |Waiting(Seen(ns[..k]), h)| <= REORDER_WINDOW
    && (k < |ns| ==> ns[k] < h + HALF && h <= ns[k] + HALF)
  }

  /** The buffer holds exactly the packets of `waiting`, all within half the space from `pos`. */
  ghost predicate Mirrors(b: Buffer<nat>, waiting: set<nat>, pos: nat) {
    && b.started && b.next == Low16(pos)
    && (forall n :: n in waiting ==> pos <= n < pos + HALF && Low16(n) in b.pkts && b.pkts[Low16(n)] == n)
    && (forall k :: k in b.pkts ==> b.pkts[k] in waiting && Low16(b.pkts[k]) == k)
  }

  lemma MirrorsSize(b: Buffer<nat>, waiting: set<nat>, pos: nat)
    requires Mirrors(b, waiting, pos)
    ensures |waiting| == |b.pkts|
  {
    assert b.pkts.Keys == set n | n in waiting :: Low16(n);
    ImageSize(waiting, b.pkts.Keys, pos);
  }

  lemma {:induction false} ImageSize(waiting: set<nat>, keys: set<U16>, pos: nat)
    requires forall n :: n in waiting ==> pos <= n < pos + HALF
    requires keys == set n | n in waiting :: Low16(n)
    ensures |waiting| == |keys|
    decreases |waiting|
  {
    if waiting != {} {
      var x :| x in waiting;
      forall n | n in waiting && Low16(n) == Low16(x) ensures n == x {
        Low16Ahead(pos, n);
        Low16Ahead(pos, x);
      }
      assert keys - {Low16(x)} == set n | n in waiting - {x} :: Low16(n);
      ImageSize(waiting - {x}, keys - {Low16(x)}, pos);
    }
  }

  /** Draining delivers exactly the run of packets up to the next hole. */
  lemma {:induction false} DrainMirrors(b: Buffer<nat>, waiting: set<nat>, pos: nat) returns (h: nat)
    requires Mirrors(b, waiting, pos)
    ensures IsHole(waiting, pos, h)
    ensures Drain(b).1 == Range(pos, h)
    ensures Mirrors(Drain(b).0, Waiting(waiting, h), h)
    decreases |b.pkts|
  {
    hide Low16, Succ16;
    if b.next in b.pkts {
      var b1 := Buffer(b.pkts - {b.next}, Succ16(b.next), b.started);
      assert b1.pkts.Keys == b.pkts.Keys - {b.next};
      StepMirrors(b, waiting, pos);
      hide Mirrors, IsHole, Waiting;
      h := DrainMirrors(b1, waiting - {pos}, pos + 1);
      assert [pos] + Range(pos + 1, h) == Range(pos, h);
      HoleWithHead(waiting, pos, h);
    } else {
      h := pos;
      assert Waiting(waiting, h) == waiting;
    }
  }

  lemma HoleWithHead(waiting: set<nat>, pos: nat, h: nat)
    requires pos in waiting && IsHole(waiting - {pos}, pos + 1, h)
    ensures IsHole(waiting, pos, h) && Waiting(waiting - {pos}, h) == Waiting(waiting, h)
  {
    forall x | pos <= x < h ensures x in waiting {
      if x > pos {
        assert x in waiting - {pos};
      }
    }
  }

  lemma StepMirrors(b: Buffer<nat>, waiting: set<nat>, pos: nat)
    requires Mirrors(b, waiting, pos) && b.next in b.pkts
    ensures b.pkts[b.next] == pos && pos in waiting
    ensures Mirrors(Buffer(b.pkts - {b.next}, Succ16(b.next), b.started), waiting - {pos}, pos + 1)
  {
    Low16Ahead(pos, b.pkts[b.next]);
    Low16Succ(pos);
    forall n | n in waiting - {pos} ensures Low16(n) != b.next {
      Low16Ahead(pos, n);
    }
  }

  lemma DropOld(b: Buffer<nat>, waiting: set<nat>, pos: nat, n: nat)
    requires Mirrors(b, waiting, pos) && n < pos <= n + HALF
    ensures Push(b, Low16(n), n) == (b, [])
  {
    Low16Ahead(n, pos);
    Sub16Cases(Low16(n), Low16(pos));
    Sub16Cases(Low16(pos), Low16(n));
  }

  lemma AcceptNew(b: Buffer<nat>, waiting: set<nat>, pos: nat, n: nat)
    requires Mirrors(b, waiting, pos) && pos <= n < pos + HALF
    ensures !SeqLess(Low16(n), b.next)
    ensures Mirrors(b.(pkts := b.pkts[Low16(n) := n]), waiting + {n}, pos)
  {
    Low16Ahead(pos, n);
    forall m | m in waiting && Low16(m) == Low16(n) ensures m == n {
      Low16Ahead(pos, m);
    }
  }

  /** With the head packet present, or no more than a window waiting, nothing is skipped. */
  lemma NoSkip(b: Buffer<nat>, waiting: set<nat>, pos: nat)
    requires Mirrors(b, waiting, pos)
    requires pos in waiting || |waiting| <= REORDER_WINDOW
    ensures Skip(b) == b
  {
    MirrorsSize(b, waiting, pos);
    if |waiting| > REORDER_WINDOW {
      var s := Skip(b).next;
      assert Ahead(b, s) <= Ahead(b, Low16(pos));
      Low16Ahead(pos, pos);
      Sub16Cases(s, b.next);
    }
  }

  /** A skip goes to the lowest waiting packet. */
  lemma SkipMirrors(b: Buffer<nat>, waiting: set<nat>, pos: nat) returns (from: nat)
    requires Mirrors(b, waiting, pos)
    ensures pos <= from < pos + HALF && (from == pos || from in waiting)
    ensures Mirrors(Skip(b), waiting, from)
  {
    hide Low16, Sub16;
    from := pos;
    if |b.pkts| > REORDER_WINDOW {
      var s := Skip(b).next;
      from := b.pkts[s];
      Low16Ahead(pos, from);
      forall n | n in waiting ensures from <= n {
        assert Ahead(b, s) <= Ahead(b, Low16(n));
        Low16Ahead(pos, n);
      }
    }
  }

  lemma PushMirrors(b: Buffer<nat>, waiting: set<nat>, pos: nat, n: nat) returns (h: nat)
    requires Mirrors(b, waiting, pos) && n < pos + HALF && pos <= n + HALF
    requires n > pos ==> |waiting + {n}| <= REORDER_WINDOW
    ensures n < pos ==> h == pos && Push(b, Low16(n), n) == (b, [])
    ensures n >= pos ==>
              && IsHole(waiting + {n}, pos, h)
              && Push(b, Low16(n), n).1 == Range(pos, h)
              && Mirrors(Push(b, Low16(n), n).0, Waiting(waiting + {n}, h), h)
  {
    if n < pos {
      DropOld(b, waiting, pos, n);
      h := pos;
    } else {
      AcceptNew(b, waiting, pos, n);
      var b2 := b.(pkts := b.pkts[Low16(n) := n]);
      NoSkip(b2, waiting + {n}, pos);
      h := DrainMirrors(b2, waiting + {n}, pos);
    }
  }

  lemma SeenSnoc(ns: seq<nat>, k: nat)
    requires k < |ns|
    ensures Seen(ns[..k + 1]) == Seen(ns[..k]) + {ns[k]}
    ensures Tagged(ns[..k + 1])[..k] == Tagged(ns[..k])
    ensures Tagged(ns[..k + 1])[k] == (Low16(ns[k]), ns[k])
  {
    var a, b := ns[..k + 1], ns[..k];
    assert forall i :: 0 <= i < k ==> a[i] == b[i];
    forall x | x in Seen(b) ensures x in Seen(a) {
      var i :| 0 <= i < |b| && b[i] == x;
      assert a[i] == x;
    }
    assert a[k] == ns[k];
  }

  lemma RunSnoc(ns: seq<nat>, k: nat)
    requires k < |ns|
    ensures var (b, out) := Run(Tagged(ns[..k]));
            var (b', more) := Push(b, Low16(ns[k]), ns[k]);
            Run(Tagged(ns[..k + 1])) == (b', out + more)
  {
    SeenSnoc(ns, k);
  }

  /** One timely arrival, over the whole history. */
  lemma HistoryStep(seen: set<nat>, start: nat, h: nat, n: nat, h': nat)
    requires IsHole(seen, start, h) && start <= n
    requires if n < h then h' == h else IsHole(Waiting(seen, h) + {n}, h, h')
    ensures IsHole(seen + {n}, start, h')
    ensures n >= h ==> Waiting(Waiting(seen, h) + {n}, h') == Waiting(seen + {n}, h')
    ensures n < h ==> Waiting(seen + {n}, h') == Waiting(seen, h)
  {
    forall x | start <= x < h' ensures x in seen + {n} {
      if x >= h {
        assert x in Waiting(seen, h) + {n};
      }
    }
  }

  /** Before the hole moves, the packets waiting behind it are at most those waiting afterwards. */
  lemma WaitingWithin(seen: set<nat>, start: nat, h: nat, n: nat)
    requires IsHole(seen, start, h) && n > h
    ensures IsHole(seen + {n}, start, h)
    ensures Waiting(seen + {n}, h) == Waiting(seen, h) + {n}
  {
    forall x | start <= x < h ensures x in seen + {n} {
      assert x in seen;
    }
  }

  /** While arrivals are timely, everything below the hole has been delivered in order and the
      buffer holds exactly what waits behind it. Repeated packets are allowed. */
  lemma {:induction false} TimelyPrefix(ns: seq<nat>, k: nat) returns (h: nat)
    requires ns != [] && 1 <= k <= |ns| && Timely(ns)
    requires forall i :: 0 <= i < |ns| ==> ns[0] <= ns[i]
    ensures IsHole(Seen(ns[..k]), ns[0], h)
    ensures Run(Tagged(ns[..k])).1 == Range(ns[0], h)
    ensures Mirrors(Run(Tagged(ns[..k])).0, Waiting(Seen(ns[..k]), h), h)
  {
    if k == 1 {
      h := TimelyFirst(ns);
    } else {
      RunSnoc(ns, k - 1);
      SeenSnoc(ns, k - 1);
      hide Mirrors, Push, IsHole, Waiting, Seen, Run, Tagged;
      var g := TimelyPrefix(ns, k - 1);
      assert TimelyAt(ns, k - 1, g);
      if ns[k - 1] > g {
        WaitingWithin(Seen(ns[..k - 1]), ns[0], g, ns[k - 1]);
        assert TimelyAt(ns, k, g);
      }
      var b, out := Run(Tagged(ns[..k - 1])).0, Run(Tagged(ns[..k - 1])).1;
      h := TimelyStep(b, out, Seen(ns[..k - 1]), ns[0], g, ns[k - 1]);
    }
  }

  lemma TimelyStep(b: Buffer<nat>, out: seq<nat>, seen: set<nat>, start: nat, g: nat, n: nat) returns (h: nat)
    requires IsHole(seen, start, g) && out == Range(start, g) && Mirrors(b, Waiting(seen, g), g)
    requires start <= n < g + HALF && g <= n + HALF
    requires n > g ==> |Waiting(seen, g) + {n}| <= REORDER_WINDOW
    ensures var (b', more) := Push(b, Low16(n), n);
            && IsHole(seen + {n}, start, h)
            && out + more == Range(start, h)
            && Mirrors(b', Waiting(seen + {n}, h), h)
  {
    hide Mirrors, Push;
    h := PushMirrors(b, Waiting(seen, g), g, n);
    HistoryStep(seen, start, g, n, h);
    if n < g {
      assert out + [] == out;
    } else {
      assert Range(start, g) + Range(g, h) == Range(start, h);
    }
  }

  lemma TimelyFirst(ns: seq<nat>) returns (h: nat)
    requires ns != []
    ensures IsHole(Seen(ns[..1]), ns[0], h)
    ensures Run(Tagged(ns[..1])).1 == Range(ns[0], h)
    ensures Mirrors(Run(Tagged(ns[..1])).0, Waiting(Seen(ns[..1]), h), h)
  {
    hide Push, Mirrors;
    RunSnoc(ns, 0);
    SeenSnoc(ns, 0);
    assert ns[..0] == [];
    h := FirstArrival(ns[0]);
    assert [] + Range(ns[0], h) == Range(ns[0], h);
    assert Waiting(Seen(ns[..1]), h) == {};
  }

  lemma FirstArrival(n: nat) returns (h: nat)
    ensures h == n + 1
    ensures Push(Empty(), Low16(n), n).1 == Range(n, h)
    ensures Mirrors(Push(Empty(), Low16(n), n).0, {}, h)
  {
    var b := Starting(Empty<nat>(), Low16(n));
    var none: set<nat> := {};
    h := PushMirrors(b, none, n, n);
    assert h > n + 1 ==> n + 1 in none + {n};
    assert Waiting(none + {n}, h) == {};
  }

  // ---------------------------------------- and only then: necessity of Timely

  /** `ns` visits each number of a range that starts at `ns[0]` exactly once. */
  ghost predicate IsArrivalOrder(ns: seq<nat>) {
    && ns != []
    && (forall i, j :: 0 <= i < j < |ns| ==> ns[i] != ns[j])
    && (forall i :: 0 <= i < |ns| ==> ns[0] <= ns[i] < ns[0] + |ns|)
    && (forall n :: ns[0] <= n < ns[0] + |ns| ==> n in ns)
  }

  ghost predicate Delivers(ns: seq<nat>)
    requires ns != []
  {
    Run(Tagged(ns)).1 == Range(ns[0], ns[0] + |ns|)
  }

  /** `t` has been delivered or is still buffered. */
  ghost predicate Held(r: (Buffer<nat>, seq<nat>), t: nat) {
    t in r.1 || InBuffer(r.0, t)
  }

  ghost predicate InBuffer(b: Buffer<nat>, t: nat) {
    exists k :: k in b.pkts && b.pkts[k] == t
  }

  lemma {:induction false} DrainContents(b: Buffer<nat>, t: nat)
    requires Held(Drain(b), t)
    ensures InBuffer(b, t)
    decreases |b.pkts|
  {
    if b.next in b.pkts {
      var b1 := Buffer(b.pkts - {b.next}, Succ16(b.next), b.started);
      assert b1.pkts.Keys == b.pkts.Keys - {b.next};
      if t != b.pkts[b.next] {
        DrainContents(b1, t);
        var k :| k in b1.pkts && b1.pkts[k] == t;
        assert k in b.pkts && b.pkts[k] == t;
      }
    }
  }

  lemma PushContents(b: Buffer<nat>, n: nat, t: nat)
    requires Held(Push(b, Low16(n), n), t)
    ensures t == n || InBuffer(b, t)
    ensures SeqLess(Low16(n), Starting(b, Low16(n)).next) ==> InBuffer(b, t)
    ensures t != n && KeyedBy(b, Low16) && !SeqLess(Low16(n), Starting(b, Low16(n)).next) ==> Low16(t) != Low16(n)
  {
    var b1 := Starting(b, Low16(n));
    if !SeqLess(Low16(n), b1.next) {
      var b2 := b1.(pkts := b1.pkts[Low16(n) := n]);
      DrainContents(Skip(b2), t);
      var k :| k in b2.pkts && b2.pkts[k] == t;
      if t != n {
        assert k in b.pkts && b.pkts[k] == t;
      }
    }
  }

  /** Two packets that share a key cannot both survive a push of one of them. */
  lemma KeyClash(b: Buffer<nat>, n: nat, t: nat)
    requires KeyedBy(b, Low16) && t != n && Low16(t) == Low16(n) && !InBuffer(b, n)
    ensures !(Held(Push(b, Low16(n), n), t) && Held(Push(b, Low16(n), n), n))
  {
    var r := Push(b, Low16(n), n);
    if Held(r, t) && Held(r, n) {
      PushContents(b, n, t);
      PushContents(b, n, n);
    }
  }

  lemma {:induction false} OutGrows(ns: seq<nat>, k: nat)
    requires k <= |ns|
    ensures Run(Tagged(ns[..k])).1 <= Run(Tagged(ns)).1
    decreases |ns| - k
  {
    if k < |ns| {
      RunSnoc(ns, k);
      OutGrows(ns, k + 1);
    } else {
      assert ns[..k] == ns;
    }
  }

  lemma {:induction false} HeldSeen(ns: seq<nat>, k: nat, t: nat)
    requires k <= |ns| && Held(Run(Tagged(ns[..k])), t)
    ensures t in Seen(ns[..k])
  {
    hide Push, Low16;
    if k > 0 {
      RunSnoc(ns, k - 1);
      SeenSnoc(ns, k - 1);
      var (b, out) := Run(Tagged(ns[..k - 1]));
      if t in out {
        HeldSeen(ns, k - 1, t);
      } else {
        PushContents(b, ns[k - 1], t);
        if t != ns[k - 1] {
          HeldSeen(ns, k - 1, t);
        }
      }
    }
  }

  /** A packet that is neither delivered nor buffered, and does not arrive again, is lost. */
  lemma {:induction false} LostForGood(ns: seq<nat>, k: nat, t: nat)
    requires k <= |ns| && !Held(Run(Tagged(ns[..k])), t)
    requires forall i :: k <= i < |ns| ==> ns[i] != t
    ensures t !in Run(Tagged(ns)).1
    decreases |ns| - k
  {
    if k < |ns| {
      RunSnoc(ns, k);
      var (b, out) := Run(Tagged(ns[..k]));
      if Held(Run(Tagged(ns[..k + 1])), t) {
        PushContents(b, ns[k], t);
      }
      LostForGood(ns, k + 1, t);
    } else {
      assert ns[..k] == ns;
    }
  }

  lemma SeenIndex(ns: seq<nat>, k: nat, t: nat)
    requires IsArrivalOrder(ns) && k <= |ns|
    ensures t in Seen(ns[..k]) <==> exists i :: 0 <= i < k && ns[i] == t
    ensures t in Seen(ns[..k]) ==> forall i :: k <= i < |ns| ==> ns[i] != t
  {
    if t in Seen(ns[..k]) {
      var i :| 0 <= i < k && ns[..k][i] == t;
      assert ns[i] == t;
    }
    if i :| 0 <= i < k && ns[i] == t {
      assert ns[..k][i] == t;
    }
  }

  /** If the whole stream comes out in order, nothing is lost on the way. */
  lemma NothingLost(ns: seq<nat>, k: nat, t: nat)
    requires IsArrivalOrder(ns) && Delivers(ns) && k <= |ns| && t in Seen(ns[..k])
    ensures Held(Run(Tagged(ns[..k])), t)
  {
    if !Held(Run(Tagged(ns[..k])), t) {
      SeenIndex(ns, k, t);
      var i :| 0 <= i < k && ns[i] == t;
      assert Range(ns[0], ns[0] + |ns|)[t - ns[0]] == t;
      LostForGood(ns, k, t);
    }
  }

  lemma PrefixOfRange(out: seq<nat>, lo: nat, hi: nat)
    requires lo <= hi && out <= Range(lo, hi)
    ensures out == Range(lo, lo + |out|)
  {
  }

  lemma {:induction false} DrainKeyed(b: Buffer<nat>)
    requires KeyedBy(b, Low16)
    ensures KeyedBy(Drain(b).0, Low16)
    decreases |b.pkts|
  {
    hide Low16, Succ16;
    if b.next in b.pkts {
      assert (b.pkts - {b.next}).Keys == b.pkts.Keys - {b.next};
      DrainKeyed(Buffer(b.pkts - {b.next}, Succ16(b.next), b.started));
    }
  }

  lemma PushKeyed(b: Buffer<nat>, n: nat)
    requires KeyedBy(b, Low16)
    ensures KeyedBy(Push(b, Low16(n), n).0, Low16)
  {
    hide Low16;
    var b1 := Starting(b, Low16(n));
    if !SeqLess(Low16(n), b1.next) {
      DrainKeyed(Skip(b1.(pkts := b1.pkts[Low16(n) := n])));
    }
  }

  lemma {:induction false} RunKeyed(ns: seq<nat>, k: nat)
    requires k <= |ns|
    ensures KeyedBy(Run(Tagged(ns[..k])).0, Low16) && Inv(Run(Tagged(ns[..k])).0)
    ensures k > 0 ==> Run(Tagged(ns[..k])).0.started
  {
    RunInv(Tagged(ns[..k]));
    if k > 0 {
      RunKeyed(ns, k - 1);
      RunSnoc(ns, k - 1);
      PushKeyed(Run(Tagged(ns[..k - 1])).0, ns[k - 1]);
    }
  }

  /** If the whole stream comes out in order, the buffer never skips: after every arrival `next`
      is the number after the last one delivered. */
  lemma {:induction false} NextIsHead(ns: seq<nat>, k: nat)
    requires IsArrivalOrder(ns) && Delivers(ns) && 1 <= k <= |ns|
    ensures var (b, out) := Run(Tagged(ns[..k]));
            out == Range(ns[0], ns[0] + |out|) && b.next == Low16(ns[0] + |out|)
  {
    hide Push, Low16, Run, Tagged, Inv, KeyedBy;
    OutGrows(ns, k);
    PrefixOfRange(Run(Tagged(ns[..k])).1, ns[0], ns[0] + |ns|);
    if k == 1 {
      HeadAfterFirst(ns);
    } else {
      NextIsHead(ns, k - 1);
      RunKeyed(ns, k - 1);
      RunSnoc(ns, k - 1);
      NextStep(Run(Tagged(ns[..k - 1])).0, Run(Tagged(ns[..k - 1])).1, ns[0], ns[k - 1]);
    }
  }

  lemma HeadAfterFirst(ns: seq<nat>)
    requires ns != []
    ensures var (b, out) := Run(Tagged(ns[..1])); b.next == Low16(ns[0] + |out|)
  {
    hide Run, Tagged, Seen, Waiting;
    var h := TimelyFirst(ns);
  }

  lemma NextStep(b: Buffer<nat>, out: seq<nat>, start: nat, n: nat)
    requires Inv(b) && b.started && KeyedBy(b, Low16) && b.next == Low16(start + |out|)
    requires var more := Push(b, Low16(n), n).1; out + more == Range(start, start + |out + more|)
    ensures var (b', more) := Push(b, Low16(n), n); b'.next == Low16(start + |out + more|)
  {
    hide Push;
    var pos := start + |out|;
    var more := Push(b, Low16(n), n).1;
    var from := PushNumbers(b, Low16(n), n, Low16, pos);
    if more != [] {
      assert (out + more)[|out|] == pos == more[0];
      assert Low16(more[0]) == Low16(from + 0);
      Low16Ahead(pos, from);
      Low16Ahead(pos, pos);
    }
  }

  /** The hole in the arrivals is where delivery stands. */
  lemma HeadIsHole(ns: seq<nat>, k: nat)
    requires IsArrivalOrder(ns) && Delivers(ns) && 1 <= k <= |ns|
    ensures IsHole(Seen(ns[..k]), ns[0], ns[0] + |Run(Tagged(ns[..k])).1|)
  {
    hide Push, Run, Tagged;
    NextIsHead(ns, k);
    RunKeyed(ns, k);
    var (b, out) := Run(Tagged(ns[..k]));
    var lo := ns[0];
    var h := lo + |out|;
    forall x | ns[0] <= x < h ensures x in Seen(ns[..k]) {
      assert out[x - ns[0]] == x;
      HeldSeen(ns, k, x);
    }
    NotAtHead(b, out, lo);
    if h in Seen(ns[..k]) {
      NothingLost(ns, k, h);
    }
  }

  lemma NotAtHead(b: Buffer<nat>, out: seq<nat>, start: nat)
    requires Inv(b) && KeyedBy(b, Low16) && out == Range(start, start + |out|) && b.next == Low16(start + |out|)
    ensures !Held((b, out), start + |out|)
  {
  }

  lemma HoleUnique(seen: set<nat>, start: nat, h: nat, h': nat)
    requires IsHole(seen, start, h) && IsHole(seen, start, h')
    ensures h == h'
  {
  }

  lemma {:induction false} ValuesSize(m: map<U16, nat>, s: set<nat>)
    requires forall t :: t in s ==> exists k :: k in m && m[k] == t
    ensures |s| <= |m|
    decreases |m|
  {
    if s != {} {
      var t :| t in s;
      var k :| k in m && m[k] == t;
      var m' := m - {k};
      assert m'.Keys == m.Keys - {k};
      forall u | u in s - {t} ensures exists j :: j in m' && m'[j] == u {
        var j :| j in m && m[j] == u;
        assert j in m' && m'[j] == u;
      }
      ValuesSize(m', s - {t});
    }
  }

  lemma WaitingBounded(ns: seq<nat>, k: nat, h: nat)
    requires IsArrivalOrder(ns) && Delivers(ns) && 1 <= k <= |ns| && IsHole(Seen(ns[..k]), ns[0], h)
    ensures |Waiting(Seen(ns[..k]), h)| <= REORDER_WINDOW
  {
    HeadIsHole(ns, k);
    NextIsHead(ns, k);
    RunKeyed(ns, k);
    var (b, out) := Run(Tagged(ns[..k]));
    HoleUnique(Seen(ns[..k]), ns[0], h, ns[0] + |out|);
    forall t | t in Waiting(Seen(ns[..k]), h) ensures InBuffer(b, t) {
      NothingLost(ns, k, t);
    }
    ValuesSize(b.pkts, Waiting(Seen(ns[..k]), h));
  }

  /** At arrival `k`, no packet sharing the newcomer's key may already wait. */
  lemma NoClashAt(ns: seq<nat>, k: nat, t: nat)
    requires IsArrivalOrder(ns) && Delivers(ns) && 1 <= k < |ns|
    requires t in Seen(ns[..k]) && t !in Run(Tagged(ns[..k])).1 && t != ns[k]
    ensures Low16(t) != Low16(ns[k])
  {
    var (b, out) := Run(Tagged(ns[..k]));
    var n := ns[k];
    SeenIndex(ns, k, n);
    RunKeyed(ns, k);
    if Low16(t) == Low16(n) {
      if InBuffer(b, n) || n in out {
        HeldSeen(ns, k, n);
      }
      KeyClash(b, n, t);
      RunSnoc(ns, k);
      SeenSnoc(ns, k);
      NothingLost(ns, k + 1, t);
      NothingLost(ns, k + 1, n);
    }
  }

  lemma ArrivalAccepted(ns: seq<nat>, k: nat)
    requires IsArrivalOrder(ns) && Delivers(ns) && 1 <= k < |ns|
    ensures !SeqLess(Low16(ns[k]), Run(Tagged(ns[..k])).0.next)
  {
    var (b, out) := Run(Tagged(ns[..k]));
    RunKeyed(ns, k);
    if SeqLess(Low16(ns[k]), b.next) {
      RunSnoc(ns, k);
      SeenSnoc(ns, k);
      NothingLost(ns, k + 1, ns[k]);
      SeenIndex(ns, k, ns[k]);
      if Held((b, out), ns[k]) {
        HeldSeen(ns, k, ns[k]);
      }
    }
  }

  lemma ArrivalNear(ns: seq<nat>, k: nat, h: nat)
    requires IsArrivalOrder(ns) && Delivers(ns) && 1 <= k < |ns| && IsHole(Seen(ns[..k]), ns[0], h)
    ensures h <= ns[k] < h + HALF
  {
    HeadIsHole(ns, k);
    NextIsHead(ns, k);
    HoleUnique(Seen(ns[..k]), ns[0], h, ns[0] + |Run(Tagged(ns[..k])).1|);
    var n := ns[k];
    SeenIndex(ns, k, n);
    assert h <= n;
    if n >= h + HALF {
      ArrivalAccepted(ns, k);
      var u := h + (n - h) % 0x1_0000;
      SameKey(h, n, u);
      if u in Seen(ns[..k]) {
        NoClashAt(ns, k, u);
      } else {
        LaterClash(ns, k, h, u);
      }
    }
  }

  lemma SameKey(h: nat, n: nat, u: nat)
    requires h + HALF <= n && u == h + (n - h) % 0x1_0000 && !SeqLess(Low16(n), Low16(h))
    ensures Low16(u) == Low16(n) && h <= u < n
  {
    assert Sub16(Low16(n), Low16(h)) == (n - h) % 0x1_0000;
    assert n - u == ((n - h) / 0x1_0000) * 0x1_0000;
  }

  /** A newcomer a whole cycle early is displaced by the packet whose key it took. */
  lemma LaterClash(ns: seq<nat>, k: nat, h: nat, u: nat)
    requires IsArrivalOrder(ns) && Delivers(ns) && 1 <= k < |ns| && IsHole(Seen(ns[..k]), ns[0], h)
    requires h <= u < ns[k] && u !in Seen(ns[..k])
    ensures Low16(u) != Low16(ns[k])
  {
    hide Low16, Run, Tagged;
    assert u in ns;
    var j :| 0 <= j < |ns| && ns[j] == u;
    SeenIndex(ns, k, u);
    assert j > k;
    SeenIndex(ns, j, u);
    SeenIndex(ns, j, ns[k]);
    HeadIsHole(ns, j);
    NextIsHead(ns, j);
    var out := Run(Tagged(ns[..j])).1;
    assert ns[0] + |out| <= u;
    NoClashAt(ns, j, ns[k]);
  }

  lemma {:induction false} InOrderOnlyIfTimely(ns: seq<nat>)
    requires IsArrivalOrder(ns) && Delivers(ns)
    ensures Timely(ns)
  {
    forall k, h | 1 <= k <= |ns| && IsHole(Seen(ns[..k]), ns[0], h) ensures TimelyAt(ns, k, h) {
      WaitingBounded(ns, k, h);
      if k < |ns| {
        ArrivalNear(ns, k, h);
      }
    }
  }

  /** Order restored, exactly: when every packet of a stream arrives once and the first one is the
      lowest, the buffer hands on the whole stream in order if and only if every packet arrives
      less than half the sequence space ahead of the lowest missing one and never more than 256
      packets wait behind it. */
  lemma InOrderIffTimely(ns: seq<nat>)
    requires IsArrivalOrder(ns)
    ensures Delivers(ns) <==> Timely(ns)
  {
    if Timely(ns) {
      var h := TimelyPrefix(ns, |ns|);
      assert ns[..|ns|] == ns;
      WholeRangeSeen(ns, h);
    }
    if Delivers(ns) {
      InOrderOnlyIfTimely(ns);
    }
  }

  lemma WholeRangeSeen(ns: seq<nat>, h: nat)
    requires IsArrivalOrder(ns) && IsHole(Seen(ns), ns[0], h)
    ensures h == ns[0] + |ns|
  {
    var end := ns[0] + |ns|;
    if h < end {
      SeenCovers(ns, h);
    } else if h > end {
      SeenWithin(ns, end);
    }
  }

  lemma SeenCovers(ns: seq<nat>, n: nat)
    requires IsArrivalOrder(ns) && ns[0] <= n < ns[0] + |ns|
    ensures n in Seen(ns)
  {
    assert n in ns;
    var i :| 0 <= i < |ns| && ns[i] == n;
  }

  lemma SeenWithin(ns: seq<nat>, n: nat)
    requires IsArrivalOrder(ns) && n in Seen(ns)
    ensures n < ns[0] + |ns|
  {
    var i :| 0 <= i < |ns| && ns[i] == n;
  }

  /** The bound of 256 waiting packets alone is not enough: in this arrival order at most one packet
      ever waits, yet it comes 0x8000 ahead of the hole, is taken for an old one and is lost. */
  lemma FarAheadIsLost(ns: seq<nat>)
    requires ns == [0, HALF + 1] + Range(1, HALF + 1)
    ensures IsArrivalOrder(ns) && !Delivers(ns)
    ensures forall k, h :: 1 <= k <= |ns| && IsHole(Seen(ns[..k]), 0, h) ==> Waiting(Seen(ns[..k]), h) <= {HALF + 1}
  {
    assert forall i :: 2 <= i < |ns| ==> ns[i] == i - 1;
    forall n | 0 <= n < |ns| ensures n in ns {
      assert n == 0 ==> ns[0] == n;
      assert 0 < n <= HALF ==> ns[n + 1] == n;
      assert n == HALF + 1 ==> ns[1] == n;
    }
    SeenSnoc(ns, 0);
    assert ns[..0] == [];
    assert IsHole(Seen(ns[..1]), ns[0], 1);
    assert Timely(ns) ==> TimelyAt(ns, 1, 1);
    InOrderIffTimely(ns);
    forall k, h | 1 <= k <= |ns| && IsHole(Seen(ns[..k]), 0, h) ensures Waiting(Seen(ns[..k]), h) <= {HALF + 1} {
      OneWaits(ns, k, h);
    }
  }

  lemma OneWaits(ns: seq<nat>, k: nat, h: nat)
    requires ns == [0, HALF + 1] + Range(1, HALF + 1)
    requires 1 <= k <= |ns| && IsHole(Seen(ns[..k]), 0, h)
    ensures Waiting(Seen(ns[..k]), h) <= {HALF + 1}
  {
    forall t | t in Waiting(Seen(ns[..k]), h) ensures t == HALF + 1 {
      var i :| 0 <= i < k && ns[..k][i] == t;
      if i >= 2 {
        EarlierSeen(ns, k, i, h);
      }
    }
  }

  lemma EarlierSeen(ns: seq<nat>, k: nat, i: nat, n: nat)
    requires ns == [0, HALF + 1] + Range(1, HALF + 1) && 2 <= i < k <= |ns| && n < i - 1
    ensures n in Seen(ns[..k])
  {
    if n == 0 {
      assert ns[..k][0] == n;
    } else {
      assert ns[..k][n + 1] == n;
    }
  }
}
