/** Order of delivery against the sender's own unbounded packet numbers, in every run: whatever is
    lost, repeated or given up. */
module StreamOrder {
  import opened Bytes
  import opened ReorderBuffer
  import opened ReorderProofs

  /** Numbers that increase, by at most half the sequence space at a time. */
  ghost predicate Ascending(out: seq<nat>) {
    forall i :: 0 <= i < |out| - 1 ==> out[i] < out[i + 1] <= out[i] + HALF
  }

  /** One more than the last number delivered. */
  function NextAfter(out: seq<nat>): nat
    requires out != []
  {
    out[|out| - 1] + 1
  }

  /** Packet `n` is taken for what it is when `pos` is the next number to deliver: it is dropped, or
      it is the packet the buffer takes it for. */
  ghost predicate Recognised(n: nat, pos: nat) {
    (n - pos) % 0x1_0000 < HALF ==> pos <= n < pos + HALF
  }

  /** Every arrival after the first is recognised. */
  ghost predicate AllRecognised(ns: seq<nat>) {
    forall k :: 1 <= k < |ns| ==> RecognisedAt(ns, k)
  }

  ghost predicate RecognisedAt(ns: seq<nat>, k: nat)
    requires k < |ns|
  {
    var out := Run(Tagged(ns[..k])).1;
    out != [] ==> Recognised(ns[k], NextAfter(out))
  }

  lemma DropForeign(b: Buffer<nat>, pos: nat, n: nat)
    requires b.started && b.next == Low16(pos) && (n - pos) % 0x1_0000 >= HALF
    ensures Push(b, Low16(n), n) == (b, [])
  {
    assert Sub16(Low16(n), Low16(pos)) == (n - pos) % 0x1_0000 by { SubLow(n, pos); }
  }

  lemma SubLow(n: nat, pos: nat)
    ensures Sub16(Low16(n), Low16(pos)) == (n - pos) % 0x1_0000
  {
    Sub16Cases(Low16(n), Low16(pos));
  }

  /** What holds between arrivals: `out` went out in order up to `pos`, and the buffer holds the
      packets of `waiting`, all of them arrivals. */
  ghost predicate Ordered(b: Buffer<nat>, out: seq<nat>, seen: set<nat>, waiting: set<nat>, pos: nat) {
    && Mirrors(b, waiting, pos) && waiting <= seen && pos !in waiting
    && out != [] && Ascending(out) && pos == NextAfter(out)
    && forall i :: 0 <= i < |out| ==> out[i] in seen
  }

  lemma AscendingExtends(out: seq<nat>, from: nat, h: nat)
    requires out != [] && Ascending(out) && NextAfter(out) <= from < NextAfter(out) + HALF && from < h
    ensures Ascending(out + Range(from, h)) && NextAfter(out + Range(from, h)) == h
  {
    var all := out + Range(from, h);
    forall i | 0 <= i < |all| - 1 ensures all[i] < all[i + 1] <= all[i] + HALF {
      if i < |out| - 1 {
        assert all[i] == out[i] && all[i + 1] == out[i + 1];
      }
    }
  }

  /** One arrival. */
  lemma OrderedStep(b: Buffer<nat>, out: seq<nat>, seen: set<nat>, waiting: set<nat>, pos: nat, n: nat)
    returns (waiting': set<nat>, pos': nat)
    requires Ordered(b, out, seen, waiting, pos) && Recognised(n, pos)
    ensures var (b', more) := Push(b, Low16(n), n);
            Ordered(b', out + more, seen + {n}, waiting', pos')
  {
    hide Push, Low16, Mirrors, Ascending;
    if (n - pos) % 0x1_0000 >= HALF {
      assert Push(b, Low16(n), n) == (b, []) by { StartedAt(b, waiting, pos); DropForeign(b, pos, n); }
      waiting', pos' := waiting, pos;
      assert out + [] == out;
    } else {
      var from, h := AcceptedRun(b, waiting, pos, n);
      waiting', pos' := Waiting(waiting + {n}, h), h;
      var more := Range(from, h);
      assert Push(b, Low16(n), n).1 == more;
      forall x | from <= x < h ensures x in seen + {n} {
        assert x in waiting + {n};
      }
      if more == [] {
        assert out + more == out;
      } else {
        AscendingExtends(out, from, h);
      }
    }
  }

  lemma StartedAt(b: Buffer<nat>, waiting: set<nat>, pos: nat)
    requires Mirrors(b, waiting, pos)
    ensures b.started && b.next == Low16(pos)
  {
  }

  /** An accepted arrival delivers a run of arrivals that starts at the next number, or after a
      hole that is given up. */
  lemma AcceptedRun(b: Buffer<nat>, waiting: set<nat>, pos: nat, n: nat) returns (from: nat, h: nat)
    requires Mirrors(b, waiting, pos) && pos <= n < pos + HALF
    ensures pos <= from < pos + HALF && from <= h && (from == h ==> from == pos)
    ensures IsHole(waiting + {n}, from, h) && forall x :: x in waiting + {n} ==> from <= x
    ensures Push(b, Low16(n), n).1 == Range(from, h)
    ensures Mirrors(Push(b, Low16(n), n).0, Waiting(waiting + {n}, h), h)
  {
    AcceptNew(b, waiting, pos, n);
    var b2 := b.(pkts := b.pkts[Low16(n) := n]);
    StartedAt(b, waiting, pos);
    hide Mirrors, Low16, Sub16;
    from := SkipMirrors(b2, waiting + {n}, pos);
    LowestWaiting(Skip(b2), waiting + {n}, from);
    h := DrainMirrors(Skip(b2), waiting + {n}, from);
  }

  lemma LowestWaiting(b: Buffer<nat>, waiting: set<nat>, pos: nat)
    requires Mirrors(b, waiting, pos)
    ensures forall x :: x in waiting ==> pos <= x < pos + HALF
  {
  }

  lemma FirstOrdered(n: nat)
    ensures var (b, out) := Push(Empty(), Low16(n), n); Ordered(b, out, {n}, {}, n + 1)
  {
    hide Push, Mirrors;
    var h := FirstArrival(n);
    assert Range(n, n + 1) == [n];
  }

  lemma RecognisedPrefix(ns: seq<nat>, k: nat)
    requires AllRecognised(ns) && k <= |ns|
    ensures AllRecognised(ns[..k])
  {
    hide Run, Tagged;
    var pre := ns[..k];
    forall j | 1 <= j < |pre| ensures RecognisedAt(pre, j) {
      assert RecognisedAt(ns, j) && pre[..j] == ns[..j];
    }
  }

  lemma {:induction false} RunOrdered(ns: seq<nat>) returns (waiting: set<nat>, pos: nat)
    requires ns != [] && AllRecognised(ns)
    ensures Ordered(Run(Tagged(ns)).0, Run(Tagged(ns)).1, Seen(ns), waiting, pos)
  {
    hide Push, Low16, Run, Tagged, Seen, Ordered, Recognised;
    var k := |ns| - 1;
    assert ns[..k + 1] == ns;
    RunSnoc(ns, k);
    SeenSnoc(ns, k);
    if k == 0 {
      FirstOrdered(ns[0]);
      assert ns[..0] == [];
      EmptyRun();
      assert [] + Push(Empty(), Low16(ns[0]), ns[0]).1 == Push(Empty(), Low16(ns[0]), ns[0]).1;
      assert Seen([]) + {ns[0]} == {ns[0]};
      waiting, pos := {}, ns[0] + 1;
    } else {
      var pre := ns[..k];
      RecognisedPrefix(ns, k);
      assert RecognisedAt(ns, k);
      hide AllRecognised;
      waiting, pos := RunOrdered(pre);
      var (b, out) := Run(Tagged(pre));
      OrderedNext(b, out, Seen(pre), waiting, pos);
      waiting, pos := OrderedStep(b, out, Seen(pre), waiting, pos, ns[k]);
    }
  }

  lemma EmptyRun()
    ensures Run(Tagged([])) == (Empty(), []) && Seen([]) == {}
  {
  }

  lemma OrderedNext(b: Buffer<nat>, out: seq<nat>, seen: set<nat>, waiting: set<nat>, pos: nat)
    requires Ordered(b, out, seen, waiting, pos)
    ensures out != [] && pos == NextAfter(out)
  {
  }

  /** In every run whose arrivals are all recognised, whatever is lost, repeated or given up, the
      packets handed on are arrivals, in strictly increasing order of the sender's own numbers, and
      no step is longer than half the sequence space. */
  lemma DeliveriesIncrease(ns: seq<nat>)
    requires AllRecognised(ns)
    ensures Ascending(Run(Tagged(ns)).1)
    ensures forall i :: 0 <= i < |Run(Tagged(ns)).1| ==> Run(Tagged(ns)).1[i] in Seen(ns)
  {
    if ns != [] {
      var waiting, pos := RunOrdered(ns);
    }
  }

  lemma FirstRun(n: nat)
    ensures Run(Tagged([n])) == (Buffer(map[], Low16(n + 1), true), [n])
  {
    hide Low16, Push;
    RunSnoc([n], 0);
    EmptyRun();
    assert [n][..0] == [] && [n][..1] == [n];
    var h := FirstArrival(n);
    assert Range(n, n + 1) == [n];
    var (b, out) := Push(Empty(), Low16(n), n);
    assert b.pkts == map[];
    assert b == Buffer(map[], Low16(n + 1), true) && [] + out == [n];
  }

  /** The condition is needed: a packet late by a whole cycle of the sequence space is taken for a
      new one and handed on after a packet that follows it in the stream. */
  lemma CycleLateBreaksOrder()
    ensures Run(Tagged([0x1_0000, 1])).1 == [0x1_0000, 1]
    ensures !AllRecognised([0x1_0000, 1])
  {
    hide Run, Tagged, Push;
    var ns := [0x1_0000, 1];
    assert ns[..1] == [0x1_0000] && ns[..2] == ns;
    FirstRun(0x1_0000);
    RunSnoc(ns, 1);
    assert Low16(0x1_0001) == 1 == Low16(1);
    OnlyHead(Buffer(map[], 1, true), 1, 1);
    assert !RecognisedAt(ns, 1);
  }

  /** A packet that carries the next number passes straight through an empty buffer. */
  lemma OnlyHead(b: Buffer<nat>, s: U16, n: nat)
    requires b.started && b.next == s && b.pkts == map[]
    ensures Push(b, s, n).1 == [n]
  {
    var b2 := b.(pkts := b.pkts[s := n]);
    assert b2.pkts == map[s := n] && b2.pkts.Keys == {s};
    assert (b2.pkts - {s}) == map[];
    assert Drain(b2).1 == [n] + Drain(Buffer(b2.pkts - {s}, Succ16(s), true)).1;
  }
}
