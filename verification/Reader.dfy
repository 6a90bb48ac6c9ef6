/** The track reader: arriving RTP packets go through the reorder buffer into frame assembly. */
module Reader {
  import opened Bytes
  import opened ReorderBuffer
  import opened ReorderProofs
  import opened BufferMap
  import opened StreamOrder
  import opened FrameAssembly

  /** The frames a reader hands on for packets in order of arrival. */
  ghost function Read(vp8: Depacketizer, arrivals: seq<Packet>): seq<seq<Byte>> {
    Frames(vp8, Run(Keyed(arrivals)).1)
  }

  function Keyed(arrivals: seq<Packet>): seq<(U16, Packet)> {
    seq(|arrivals|, i requires 0 <= i < |arrivals| => (arrivals[i].seqNo, arrivals[i]))
  }

  /** A stream of packets, one for each unbounded number, carrying its low 16 bits. */
  ghost predicate IsStream(stream: nat -> Packet) {
    forall n :: stream(n).seqNo == Low16(n)
  }

  lemma {:induction false} RunMap(stream: nat -> Packet, ns: seq<nat>)
    requires IsStream(stream)
    ensures Run(Keyed(MapSeq(ns, stream)))
         == (MapBuffer(Run(Tagged(ns)).0, stream), MapSeq(Run(Tagged(ns)).1, stream))
  {
    if ns == [] {
      assert MapBuffer(Empty<nat>(), stream) == Empty<Packet>();
      assert MapSeq<nat, Packet>([], stream) == [];
    } else {
      hide Push, MapBuffer, MapSeq, Run, Keyed, Tagged, Low16;
      var k := |ns| - 1;
      var pre := ns[..k];
      SplitLast(stream, ns);
      RunLast(Keyed(MapSeq(ns, stream)), k);
      RunLast(Tagged(ns), k);
      RunMap(stream, pre);
      var (b, out) := Run(Tagged(pre));
      PushMap(b, stream, Low16(ns[k]), ns[k]);
      var more := Push(b, Low16(ns[k]), ns[k]).1;
      MapAppend(out, more, stream);
    }
  }

  lemma RunLast<P>(arrivals: seq<(U16, P)>, k: nat)
    requires |arrivals| == k + 1
    ensures var (b, out) := Run(arrivals[..k]);
            var (b', more) := Push(b, arrivals[k].0, arrivals[k].1);
            Run(arrivals) == (b', out + more)
  {
    hide Push;
  }

  lemma SplitLast(stream: nat -> Packet, ns: seq<nat>)
    requires IsStream(stream) && ns != []
    ensures |Keyed(MapSeq(ns, stream))| == |Tagged(ns)| == |ns|
    ensures var k, a, t := |ns| - 1, Keyed(MapSeq(ns, stream)), Tagged(ns);
            && a[..k] == Keyed(MapSeq(ns[..k], stream)) && a[k] == (Low16(ns[k]), stream(ns[k]))
            && t[..k] == Tagged(ns[..k]) && t[k] == (Low16(ns[k]), ns[k])
  {
  }

  /** What the reader hands on, in terms of the numbers delivered. */
  lemma ReadIsFrames(vp8: Depacketizer, stream: nat -> Packet, ns: seq<nat>)
    requires IsStream(stream)
    ensures Read(vp8, MapSeq(ns, stream)) == Frames(vp8, MapSeq(Run(Tagged(ns)).1, stream))
  {
    hide MapSeq, Run, Keyed, Tagged, Frames;
    RunMap(stream, ns);
  }

  /** The arrivals are exactly the packets `ns[0], ..., hi - 1`, each at least once. */
  ghost predicate Covers(ns: seq<nat>, hi: nat) {
    && ns != [] && ns[0] < hi
    && (forall i :: 0 <= i < |ns| ==> ns[0] <= ns[i] < hi)
    && forall n :: ns[0] <= n < hi ==> n in Seen(ns)
  }

  /** Reader refinement: when every packet of a stretch of the stream arrives, once or more often,
      the lowest first, and timely, the reader hands on exactly the frames of that stretch in its
      original order. */
  lemma ReaderRestoresStream(vp8: Depacketizer, stream: nat -> Packet, ns: seq<nat>, hi: nat)
    requires IsStream(stream) && Covers(ns, hi) && Timely(ns)
    ensures Read(vp8, MapSeq(ns, stream)) == Frames(vp8, MapSeq(Range(ns[0], hi), stream))
  {
    hide MapSeq, Run, Tagged, Frames, Read, Timely, Mirrors;
    var h := TimelyPrefix(ns, |ns|);
    assert ns[..|ns|] == ns;
    HoleIsEnd(ns, hi, h);
    ReadIsFrames(vp8, stream, ns);
  }

  lemma HoleIsEnd(ns: seq<nat>, hi: nat, h: nat)
    requires Covers(ns, hi) && IsHole(Seen(ns), ns[0], h)
    ensures h == hi
  {
    assert hi !in Seen(ns);
  }

  // ------------------------------------------------ frames in lossy runs

  /** Where in the stream a frame was completed. */
  lemma {:induction false} FrameOrigin(vp8: Depacketizer, pkts: seq<Packet>, f: nat) returns (k: nat)
    requires f < |Frames(vp8, pkts)|
    ensures 1 <= k <= |pkts| && Emitted(vp8, pkts[..k]) == Some(Frames(vp8, pkts)[f])
  {
    hide Emitted;
    var n := |pkts| - 1;
    var pre := pkts[..n];
    if f < |Frames(vp8, pre)| {
      k := FrameOrigin(vp8, pre, f);
      assert pre[..k] == pkts[..k];
    } else {
      k := n + 1;
      assert pkts[..k] == pkts;
    }
  }

  /** A frame does not depend on what precedes its start bit. */
  lemma {:induction false} BodyShift(vp8: Depacketizer, pkts: seq<Packet>, i: nat)
    requires i <= |pkts|
    ensures Body(vp8, pkts, i) == Body(vp8, pkts[i..], 0)
    decreases |pkts|
  {
    if i < |pkts| {
      var n := |pkts| - 1;
      BodyShift(vp8, pkts[..n], i);
      assert pkts[..n][i..] == pkts[i..][..n - i];
    }
  }

  lemma FrameShift(vp8: Depacketizer, pkts: seq<Packet>, i: nat)
    requires IsFrame(vp8, pkts, i)
    ensures IsFrame(vp8, pkts[i..], 0) && Body(vp8, pkts[i..], 0) == Body(vp8, pkts, i)
  {
    BodyShift(vp8, pkts, i);
    var q := pkts[i..];
    forall k | 0 < k < |q|
      ensures Parses(vp8, q[k]) && !Starts(vp8, q[k]) && q[k].seqNo == Succ16(q[k - 1].seqNo)
    {
      assert q[k] == pkts[i + k] && q[k - 1] == pkts[i + k - 1];
    }
    forall k | 0 <= k < |q| - 1 ensures !q[k].marker {
      assert q[k] == pkts[i + k];
    }
  }

  /** Packets of an ascending delivery whose 16-bit numbers follow each other are neighbours in the
      stream. */
  lemma Neighbours(out: seq<nat>, i: nat)
    requires Ascending(out) && i + 1 < |out| && Low16(out[i + 1]) == Succ16(Low16(out[i]))
    ensures out[i + 1] == out[i] + 1
  {
    Low16Succ(out[i]);
    Low16Ahead(out[i], out[i + 1]);
    Low16Ahead(out[i], out[i] + 1);
  }

  lemma {:induction false} ShapeIsStretch(
    vp8: Depacketizer, stream: nat -> Packet, out: seq<nat>, i: nat, j: nat)
    requires IsStream(stream) && Ascending(out) && Shape(vp8, MapSeq(out, stream), i) && i <= j < |out|
    ensures out[j] == out[i] + (j - i)
  {
    hide Low16, Succ16, Ascending;
    if j > i {
      ShapeIsStretch(vp8, stream, out, i, j - 1);
      var pkts := MapSeq(out, stream);
      assert pkts[j].seqNo == Succ16(pkts[j - 1].seqNo);
      Neighbours(out, j - 1);
    }
  }

  /** In every run whose arrivals are all recognised, whatever is lost, repeated or given up, each
      frame handed on is a frame of the sender's stream: the bytes of consecutive packets
      `stream(n), ..., stream(n + m - 1)`, all of which arrived, from one start bit to one marker. */
  lemma FramesAreStreamFrames(vp8: Depacketizer, stream: nat -> Packet, ns: seq<nat>, f: nat)
    returns (n: nat, m: nat)
    requires IsStream(stream) && AllRecognised(ns) && f < |Read(vp8, MapSeq(ns, stream))|
    ensures var stretch := MapSeq(Range(n, n + m), stream);
            IsFrame(vp8, stretch, 0) && Read(vp8, MapSeq(ns, stream))[f] == Body(vp8, stretch, 0)
    ensures forall x :: n <= x < n + m ==> x in Seen(ns)
  {
    var out := Run(Tagged(ns)).1;
    ReadIsFrames(vp8, stream, ns);
    DeliveriesIncrease(ns);
    hide Run, Tagged, Seen, Read, AllRecognised;
    var k := FrameOrigin(vp8, MapSeq(out, stream), f);
    n, m := FrameStretch(vp8, stream, out, k);
    forall x | n <= x < n + m ensures x in Seen(ns) {
      assert x in out;
    }
  }

  lemma FrameStretch(vp8: Depacketizer, stream: nat -> Packet, out: seq<nat>, k: nat) returns (n: nat, m: nat)
    requires IsStream(stream) && Ascending(out) && 1 <= k <= |out|
    requires Emitted(vp8, MapSeq(out, stream)[..k]).Some?
    ensures var stretch := MapSeq(Range(n, n + m), stream);
            IsFrame(vp8, stretch, 0) && Emitted(vp8, MapSeq(out, stream)[..k]) == Some(Body(vp8, stretch, 0))
    ensures forall x :: n <= x < n + m ==> x in out
  {
    hide Emitted, Body, Low16, IsFrame;
    var head := out[..k];
    var pkts := MapSeq(head, stream);
    assert pkts == MapSeq(out, stream)[..k];
    assert Ascending(head);
    EmittedExactly(vp8, pkts);
    var i: nat :| IsFrame(vp8, pkts, i);
    FrameShift(vp8, pkts, i);
    n, m := StretchFrom(vp8, stream, head, i);
    forall x | n <= x < n + m ensures x in out {
      assert x in head;
    }
  }

  lemma StretchFrom(vp8: Depacketizer, stream: nat -> Packet, out: seq<nat>, i: nat) returns (n: nat, m: nat)
    requires IsStream(stream) && Ascending(out) && IsFrame(vp8, MapSeq(out, stream), i)
    ensures MapSeq(out, stream)[i..] == MapSeq(Range(n, n + m), stream)
    ensures forall x :: n <= x < n + m ==> x in out
  {
    hide Body, Low16, Ascending, IsStream;
    n, m := out[i], |out| - i;
    forall j | i <= j < |out| ensures out[j] == n + (j - i) {
      ShapeIsStretch(vp8, stream, out, i, j);
    }
    forall x | n <= x < n + m ensures x in out {
      assert out[i + (x - n)] == x;
    }
  }

  /** The condition is needed for frames too: a packet late by a whole cycle can complete a frame
      that the sender never sent. */
  lemma CycleLateForgesFrame(vp8: Depacketizer, stream: nat -> Packet, ns: seq<nat>)
    requires IsStream(stream) && ns == [0x1_0000, 1]
    requires TwoPackets(vp8, stream(0x1_0000), stream(1))
    ensures Read(vp8, MapSeq(ns, stream)) == [Joined(vp8, stream(0x1_0000), stream(1))]
  {
    hide Run, Tagged, Read, Frames, TwoPackets, Joined;
    CycleLateBreaksOrder();
    ReadIsFrames(vp8, stream, ns);
    assert MapSeq(ns, stream) == [stream(0x1_0000), stream(1)];
    assert Low16(0x1_0000) == 0 && Low16(1) == 1;
    TwoPacketFrame(vp8, stream(0x1_0000), stream(1));
  }

  /** A start packet and a last packet of acceptable size together. */
  ghost predicate TwoPackets(vp8: Depacketizer, p: Packet, q: Packet) {
    && Starts(vp8, p) && !p.marker && Parses(vp8, q) && !Starts(vp8, q) && q.marker
    && EPOCH_HDR_LEN <= |Joined(vp8, p, q)| <= MAX_ASSEMBLED
  }

  function Joined(vp8: Depacketizer, p: Packet, q: Packet): seq<Byte> {
    if Parses(vp8, p) && Parses(vp8, q) then vp8(p.payload).value.data + vp8(q.payload).value.data else []
  }

  lemma TwoPacketFrame(vp8: Depacketizer, p: Packet, q: Packet)
    requires TwoPackets(vp8, p, q) && q.seqNo == Succ16(p.seqNo)
    ensures Frames(vp8, [p, q]) == [Joined(vp8, p, q)]
  {
    hide Emitted;
    var pkts := [p, q];
    assert pkts[..1] == [p] && [p][..0] == [];
    assert Body(vp8, [p], 0) == Body(vp8, [], 0) + vp8(p.payload).value.data;
    assert Body(vp8, pkts, 0) == Body(vp8, [p], 0) + vp8(q.payload).value.data;
    assert Body(vp8, pkts, 0) == Joined(vp8, p, q);
    EmittedExactly(vp8, [p]);
    EmittedExactly(vp8, pkts);
    assert Shape(vp8, pkts, 0) && IsFrame(vp8, pkts, 0);
    assert Frames(vp8, [p]) == Frames(vp8, []) == [];
    assert Frames(vp8, pkts) == [] + [Body(vp8, pkts, 0)];
  }
}
