/** The wire path of KCP packets: framing with a checksum, batching into VP8 samples with
    carry-over between ticks, and on the other side header parse, split and checked delivery. */
module WirePath {
  import opened Bytes
  import opened EpochHeader

  const MAX_SAMPLE := 60 * 1024
  const WIRE_CRC_LEN := 4
  const BATCH_MAGIC: seq<Byte> := [0x4f, 0x4c, 0x4b, 0x42]

  /** `sum` is the header checksum and `crc` the packet checksum. */
  datatype Config = Config(sum: Checksum, crc: Checksum, addr: Address, batchSize: int) {
    function Hdr(): (h: seq<Byte>)
      ensures |h| == HDR_LEN
    {
      Build(sum, addr)
    }
  }

  // ----------------------------------------------------------------- sender side

  /** A KCP packet with its checksum trailer. */
  function Wire(c: Config, p: seq<Byte>): (w: seq<Byte>)
    ensures |w| == |p| + WIRE_CRC_LEN
  {
    p + Be32(c.crc(p))
  }

  /** WriteTo: what is queued for one packet. */
  function Framed(c: Config, p: seq<Byte>): seq<Byte> {
    c.Hdr() + Wire(c, p)
  }

  predicate CanBatch(c: Config, frame: seq<Byte>) {
    |frame| > HDR_LEN && c.batchSize > 1
  }

  function AppendPacket(dst: seq<Byte>, packet: seq<Byte>): seq<Byte> {
    if |packet| > 0xffff then dst else dst + Be16(|packet|) + packet
  }

  /** The loop of batchSampleFrom: the finished sample, the frame carried over and the queue left. */
  function Fill(c: Config, sample: seq<Byte>, src: seq<seq<Byte>>, packets: int)
    : (seq<Byte>, Option<seq<Byte>>, seq<seq<Byte>>)
    decreases |src|
  {
    if packets >= c.batchSize || src == [] then (sample, None, src)
    else if |src[0]| <= HDR_LEN then Fill(c, sample, src[1..], packets + 1)
    else
      var payload := src[0][HDR_LEN..];
      if |sample| + 2 + |payload| > MAX_SAMPLE then (sample, Some(src[0]), src[1..])
      else Fill(c, AppendPacket(sample, payload), src[1..], packets + 1)
  }

  function BatchFrom(c: Config, src: seq<seq<Byte>>, first: seq<Byte>)
    : (seq<Byte>, Option<seq<Byte>>, seq<seq<Byte>>)
  {
    if !CanBatch(c, first) then (first, None, src)
    else Fill(c, AppendPacket(first[..HDR_LEN] + BATCH_MAGIC, first[HDR_LEN..]), src, 1)
  }

  /** The writer's queue, the frame carried over from the last tick, and the samples written. */
  datatype Pump = Pump(queue: seq<seq<Byte>>, pending: Option<seq<Byte>>, emitted: seq<seq<Byte>>)

  /** One tick: possibly a bare keyframe, then one batch, one single frame or nothing. */
  function Tick(c: Config, w: Pump, keyframe: Option<seq<Byte>>): Pump {
    var out := if keyframe.Some? then w.emitted + [keyframe.value] else w.emitted;
    if w.pending.None? && w.queue == [] then w.(emitted := out)
    else
      var (frame, rest) := if w.pending.Some? then (w.pending.value, w.queue) else (w.queue[0], w.queue[1..]);
      if !CanBatch(c, frame) then Pump(rest, None, out + [frame])
      else
        var (sample, carry, left) := BatchFrom(c, rest, frame);
        Pump(left, carry, out + [sample])
  }

  // --------------------------------------------------------------- receiver side

  function SplitBatch(rest: seq<Byte>): seq<seq<Byte>>
    decreases |rest|
  {
    if |rest| < 2 then []
    else
      var size := FromBe16(rest[..2]);
      if size == 0 || |rest| - 2 < size then []
      else [rest[2..2 + size]] + SplitBatch(rest[2 + size..])
  }

  /** splitKCPPayload: the packets passed to deliver, in order. */
  function Split(payload: seq<Byte>): seq<seq<Byte>> {
    if BATCH_MAGIC <= payload then SplitBatch(payload[|BATCH_MAGIC|..]) else [payload]
  }

  /** deliver: the packet handed to KCP, unless the checksum fails. */
  function Delivered(c: Config, w: seq<Byte>): seq<seq<Byte>> {
    if |w| < WIRE_CRC_LEN then []
    else
      var n := |w| - WIRE_CRC_LEN;
      if c.crc(w[..n]) == FromBe32(w[n..]) then [w[..n]] else []
  }

  function DeliveredAll(c: Config, ws: seq<seq<Byte>>): seq<seq<Byte>> {
    if ws == [] then [] else Delivered(c, ws[0]) + DeliveredAll(c, ws[1..])
  }

  /** The KCP packets one sample yields. */
  function Received(c: Config, sample: seq<Byte>): seq<seq<Byte>> {
    if Parse(c.sum, sample).None? || |sample| <= HDR_LEN then []
    else DeliveredAll(c, Split(sample[HDR_LEN..]))
  }

  function ReceivedAll(c: Config, samples: seq<seq<Byte>>): seq<seq<Byte>> {
    if samples == [] then [] else ReceivedAll(c, samples[..|samples| - 1]) + Received(c, samples[|samples| - 1])
  }

  // ----------------------------------------------------------------- one packet

  lemma DeliverChecked(c: Config, p: seq<Byte>)
    ensures Delivered(c, Wire(c, p)) == [p]
  {
    var w := Wire(c, p);
    assert w[..|p|] == p && w[|p|..] == Be32(c.crc(p));
    Be32RoundTrip(c.crc(p));
  }

  /** The batch body for packets `ps`. */
  function Entries(c: Config, ps: seq<seq<Byte>>): seq<Byte> {
    if ps == [] then [] else Be16(ToU16(|Wire(c, ps[0])|)) + Wire(c, ps[0]) + Entries(c, ps[1..])
  }

  ghost predicate AllShort(c: Config, ps: seq<seq<Byte>>) {
    forall i :: 0 <= i < |ps| ==> |Wire(c, ps[i])| <= 0xffff
  }

  lemma SplitFirst(w: seq<Byte>, rest: seq<Byte>)
    requires 0 < |w| <= 0xffff
    ensures SplitBatch(Be16(|w|) + w + rest) == [w] + SplitBatch(rest)
  {
    hide Be16, FromBe16;
    var e := Be16(|w|) + w + rest;
    Be16RoundTrip(|w|);
    assert e[..2] == Be16(|w|);
    assert e[2..2 + |w|] == w && e[2 + |w|..] == rest;
  }

  lemma DeliveredFirst(c: Config, w: seq<Byte>, ws: seq<seq<Byte>>)
    ensures DeliveredAll(c, [w] + ws) == Delivered(c, w) + DeliveredAll(c, ws)
  {
    hide Delivered;
    assert ([w] + ws)[1..] == ws;
  }

  lemma {:induction false} EntriesSplit(c: Config, ps: seq<seq<Byte>>)
    requires AllShort(c, ps)
    ensures DeliveredAll(c, SplitBatch(Entries(c, ps))) == ps
  {
    hide Wire, Delivered, DeliveredAll, SplitBatch, Be16;
    if ps == [] {
      NothingSplit(c);
    } else {
      var w := Wire(c, ps[0]);
      SplitFirst(w, Entries(c, ps[1..]));
      DeliveredFirst(c, w, SplitBatch(Entries(c, ps[1..])));
      DeliverChecked(c, ps[0]);
      EntriesSplit(c, ps[1..]);
      assert [ps[0]] + ps[1..] == ps;
    }
  }

  lemma NothingSplit(c: Config)
    ensures DeliveredAll(c, SplitBatch([])) == []
  {
  }

  lemma {:induction false} EntriesSnoc(c: Config, ps: seq<seq<Byte>>, p: seq<Byte>)
    requires |Wire(c, p)| <= 0xffff
    ensures Entries(c, ps + [p]) == Entries(c, ps) + Be16(|Wire(c, p)|) + Wire(c, p)
  {
    hide Wire;
    if ps == [] {
      assert ps + [p] == [p] && [p][1..] == [];
      assert Entries(c, [p]) == Be16(|Wire(c, p)|) + Wire(c, p) + [];
    } else {
      assert (ps + [p])[1..] == ps[1..] + [p];
      EntriesSnoc(c, ps[1..], p);
    }
  }

  function BatchOf(c: Config, ps: seq<seq<Byte>>): seq<Byte> {
    c.Hdr() + BATCH_MAGIC + Entries(c, ps)
  }

  lemma BatchReceived(c: Config, ps: seq<seq<Byte>>)
    requires AllShort(c, ps)
    ensures Received(c, BatchOf(c, ps)) == ps
  {
    var body := BATCH_MAGIC + Entries(c, ps);
    assert BatchOf(c, ps) == c.Hdr() + body;
    HeaderRoundTrip(c.sum, c.addr, body);
    assert body[|BATCH_MAGIC|..] == Entries(c, ps);
    EntriesSplit(c, ps);
  }

  lemma {:induction false} SplitPiecesShorter(rest: seq<Byte>, i: nat)
    requires i < |SplitBatch(rest)|
    ensures |SplitBatch(rest)[i]| <= |rest| - 2
    decreases |rest|
  {
    var size := FromBe16(rest[..2]);
    if i > 0 {
      SplitPiecesShorter(rest[2 + size..], i - 1);
    }
  }

  lemma {:induction false} DeliveredFromPiece(c: Config, ws: seq<seq<Byte>>, j: nat) returns (i: nat)
    requires j < |DeliveredAll(c, ws)|
    ensures i < |ws| && |DeliveredAll(c, ws)[j]| <= |ws[i]|
  {
    var head := Delivered(c, ws[0]);
    if j < |head| {
      i := 0;
    } else {
      i := DeliveredFromPiece(c, ws[1..], j - |head|);
      i := i + 1;
    }
  }

  /** A single unbatched frame arrives intact exactly when it does not begin with the batch magic. */
  lemma SingleFrameExact(c: Config, p: seq<Byte>)
    ensures Received(c, Framed(c, p)) == [p] <==> !(BATCH_MAGIC <= Wire(c, p))
  {
    var w := Wire(c, p);
    HeaderRoundTrip(c.sum, c.addr, w);
    if BATCH_MAGIC <= w {
      var ws := SplitBatch(w[|BATCH_MAGIC|..]);
      if DeliveredAll(c, ws) == [p] {
        var i := DeliveredFromPiece(c, ws, 0);
        SplitPiecesShorter(w[|BATCH_MAGIC|..], i);
        assert false;
      }
    } else {
      DeliverChecked(c, p);
      assert DeliveredAll(c, [w]) == Delivered(c, w) + DeliveredAll(c, [w][1..]);
    }
  }

  // ------------------------------------------------------------------ whole runs

  function FramedAll(c: Config, ps: seq<seq<Byte>>): seq<seq<Byte>> {
    seq(|ps|, i requires 0 <= i < |ps| => Framed(c, ps[i]))
  }

  /** The packet survives the writer's way of sending it. */
  ghost predicate Carries(c: Config, p: seq<Byte>) {
    if c.batchSize > 1 then |Wire(c, p)| <= 0xffff else !(BATCH_MAGIC <= Wire(c, p))
  }

  ghost predicate AllCarried(c: Config, ps: seq<seq<Byte>>) {
    forall i :: 0 <= i < |ps| ==> Carries(c, ps[i])
  }

  /** A packet small enough to share a sample with the headers. */
  ghost predicate FitsSample(c: Config, p: seq<Byte>) {
    HDR_LEN + |BATCH_MAGIC| + 2 + |Wire(c, p)| <= MAX_SAMPLE
  }

  lemma FrameParts(c: Config, p: seq<Byte>)
    ensures Framed(c, p)[..HDR_LEN] == c.Hdr() && Framed(c, p)[HDR_LEN..] == Wire(c, p)
    ensures |Framed(c, p)| == HDR_LEN + |Wire(c, p)| > HDR_LEN
  {
  }

  lemma BatchSnoc(c: Config, ps: seq<seq<Byte>>, p: seq<Byte>)
    requires |Wire(c, p)| <= 0xffff
    ensures AppendPacket(BatchOf(c, ps), Wire(c, p)) == BatchOf(c, ps + [p])
  {
    EntriesSnoc(c, ps, p);
  }

  /** Filling a batch moves a prefix of the queued packets into the sample, carries at most the
      next one over, and leaves the rest queued. */
  lemma {:induction false} FillMoves(c: Config, ps: seq<seq<Byte>>, qs: seq<seq<Byte>>, packets: int) returns (n: nat)
    requires c.batchSize > 1 && AllShort(c, ps) && AllShort(c, qs)
    ensures n <= |qs| && AllShort(c, ps + qs[..n])
    ensures var (sample, carry, left) := Fill(c, BatchOf(c, ps), FramedAll(c, qs), packets);
            && sample == BatchOf(c, ps + qs[..n])
            && (|BatchOf(c, ps)| <= MAX_SAMPLE ==> |sample| <= MAX_SAMPLE)
            && (if carry.Some? then n < |qs| && carry.value == Framed(c, qs[n]) && left == FramedAll(c, qs[n + 1..])
                else left == FramedAll(c, qs[n..]))
    decreases |qs|
  {
    hide BatchOf, Framed, Wire;
    var src := FramedAll(c, qs);
    if packets >= c.batchSize || qs == [] {
      n := 0;
      assert ps + qs[..0] == ps && qs[0..] == qs;
    } else {
      FrameParts(c, qs[0]);
      assert src[1..] == FramedAll(c, qs[1..]);
      if |BatchOf(c, ps)| + 2 + |Wire(c, qs[0])| > MAX_SAMPLE {
        n := 0;
        assert ps + qs[..0] == ps;
      } else {
        BatchSnoc(c, ps, qs[0]);
        BatchSnocSize(c, ps, qs[0]);
        var k := FillMoves(c, ps + [qs[0]], qs[1..], packets + 1);
        n := k + 1;
        assert (ps + [qs[0]]) + qs[1..][..k] == ps + qs[..n];
        assert qs[1..][k..] == qs[n..];
        assert k < |qs[1..]| ==> qs[1..][k] == qs[n] && qs[1..][k + 1..] == qs[n + 1..];
      }
    }
  }

  lemma BatchSnocSize(c: Config, ps: seq<seq<Byte>>, p: seq<Byte>)
    requires |Wire(c, p)| <= 0xffff
    ensures |BatchOf(c, ps + [p])| == |BatchOf(c, ps)| + 2 + |Wire(c, p)|
  {
    BatchSnoc(c, ps, p);
  }

  datatype Event = Write(p: seq<Byte>) | TickNow(keyframe: Option<seq<Byte>>)

  /** A bare keyframe is a header and nothing else. */
  predicate Legal(e: Event) {
    e.TickNow? && e.keyframe.Some? ==> |e.keyframe.value| == HDR_LEN
  }

  function Apply(c: Config, w: Pump, e: Event): Pump {
    match e
    case Write(p) => w.(queue := w.queue + [Framed(c, p)])
    case TickNow(k) => Tick(c, w, k)
  }

  function Written(events: seq<Event>): seq<seq<Byte>> {
    if events == [] then []
    else
      var last := events[|events| - 1];
      Written(events[..|events| - 1]) + (if last.Write? then [last.p] else [])
  }

  function Run(c: Config, events: seq<Event>): Pump {
    if events == [] then Pump([], None, []) else Apply(c, Run(c, events[..|events| - 1]), events[|events| - 1])
  }

  function Held(w: Pump): seq<seq<Byte>> {
    (if w.pending.Some? then [w.pending.value] else []) + w.queue
  }

  /** The first `n` written packets have been received and the others are held, in order. */
  ghost predicate Conserved(c: Config, w: Pump, written: seq<seq<Byte>>, n: nat) {
    n <= |written| && ReceivedAll(c, w.emitted) == written[..n] && Held(w) == FramedAll(c, written[n..])
  }

  lemma ReceivedSnoc(c: Config, samples: seq<seq<Byte>>, x: seq<Byte>)
    ensures ReceivedAll(c, samples + [x]) == ReceivedAll(c, samples) + Received(c, x)
  {
    assert (samples + [x])[..|samples|] == samples;
  }

  lemma KeyframeSilent(c: Config, samples: seq<seq<Byte>>, k: seq<Byte>)
    requires |k| == HDR_LEN
    ensures ReceivedAll(c, samples + [k]) == ReceivedAll(c, samples)
  {
    ReceivedSnoc(c, samples, k);
  }

  lemma WriteConserves(c: Config, w: Pump, written: seq<seq<Byte>>, n: nat, p: seq<Byte>)
    requires Conserved(c, w, written, n)
    ensures Conserved(c, w.(queue := w.queue + [Framed(c, p)]), written + [p], n)
  {
    assert (written + [p])[..n] == written[..n];
    assert (written + [p])[n..] == written[n..] + [p];
    assert FramedAll(c, written[n..] + [p]) == FramedAll(c, written[n..]) + [Framed(c, p)];
  }

  /** The frame a tick starts from is the oldest one held, and the rest stay queued. */
  lemma HeldHead(c: Config, w: Pump, ps: seq<seq<Byte>>)
    requires Held(w) == FramedAll(c, ps) && !(w.pending.None? && w.queue == [])
    ensures ps != []
    ensures var (frame, rest) := if w.pending.Some? then (w.pending.value, w.queue) else (w.queue[0], w.queue[1..]);
            frame == Framed(c, ps[0]) && rest == FramedAll(c, ps[1..])
  {
    assert |Held(w)| == |ps|;
    assert Held(w)[0] == FramedAll(c, ps)[0];
    assert Held(w)[1..] == FramedAll(c, ps)[1..] == FramedAll(c, ps[1..]);
  }

  /** One tick emits a sample that yields the next packets and holds exactly the others. */
  lemma SampleMoves(c: Config, out: seq<seq<Byte>>, ps: seq<seq<Byte>>) returns (m: nat)
    requires ps != [] && AllCarried(c, ps)
    ensures 1 <= m <= |ps|
    ensures var frame, rest := Framed(c, ps[0]), FramedAll(c, ps[1..]);
            var w' := if !CanBatch(c, frame) then Pump(rest, None, out + [frame])
                      else var (sample, carry, left) := BatchFrom(c, rest, frame); Pump(left, carry, out + [sample]);
            && ReceivedAll(c, w'.emitted) == ReceivedAll(c, out) + ps[..m]
            && Held(w') == FramedAll(c, ps[m..])
  {
    hide Wire, Received, BatchFrom;
    FrameParts(c, ps[0]);
    assert Carries(c, ps[0]);
    if c.batchSize > 1 {
      m := BatchMoves(c, out, ps);
    } else {
      m := 1;
      SingleFrameExact(c, ps[0]);
      ReceivedSnoc(c, out, Framed(c, ps[0]));
      assert [] + FramedAll(c, ps[1..]) == FramedAll(c, ps[1..]);
    }
  }

  lemma FirstOfBatch(c: Config, p: seq<Byte>)
    requires |Wire(c, p)| <= 0xffff
    ensures AppendPacket(Framed(c, p)[..HDR_LEN] + BATCH_MAGIC, Framed(c, p)[HDR_LEN..]) == BatchOf(c, [p])
  {
    FrameParts(c, p);
    BatchSnoc(c, [], p);
    assert [] + [p] == [p];
    assert BatchOf(c, []) == c.Hdr() + BATCH_MAGIC + [];
  }

  lemma BatchMoves(c: Config, out: seq<seq<Byte>>, ps: seq<seq<Byte>>) returns (m: nat)
    requires ps != [] && c.batchSize > 1 && AllShort(c, ps) && CanBatch(c, Framed(c, ps[0]))
    ensures 1 <= m <= |ps|
    ensures var (sample, carry, left) := BatchFrom(c, FramedAll(c, ps[1..]), Framed(c, ps[0]));
            && ReceivedAll(c, out + [sample]) == ReceivedAll(c, out) + ps[..m]
            && Held(Pump(left, carry, out + [sample])) == FramedAll(c, ps[m..])
            && (|BatchOf(c, [ps[0]])| <= MAX_SAMPLE ==> |sample| <= MAX_SAMPLE)
  {
    hide BatchOf, Framed, Wire, Received;
    FirstOfBatch(c, ps[0]);
    var n := FillMoves(c, [ps[0]], ps[1..], 1);
    m := n + 1;
    assert [ps[0]] + ps[1..][..n] == ps[..m];
    BatchReceived(c, ps[..m]);
    ReceivedSnoc(c, out, BatchOf(c, ps[..m]));
    var carry, left := Fill(c, BatchOf(c, [ps[0]]), FramedAll(c, ps[1..]), 1).1,
                       Fill(c, BatchOf(c, [ps[0]]), FramedAll(c, ps[1..]), 1).2;
    assert ps[1..][n..] == ps[m..];
    if carry.Some? {
      assert ps[1..][n] == ps[m] && ps[1..][n + 1..] == ps[m + 1..];
      assert [Framed(c, ps[m])] + FramedAll(c, ps[m + 1..]) == FramedAll(c, ps[m..]);
    } else {
      assert [] + left == left;
    }
  }

  lemma TickConserves(c: Config, w: Pump, written: seq<seq<Byte>>, n: nat, k: Option<seq<Byte>>) returns (n': nat)
    requires Conserved(c, w, written, n) && AllCarried(c, written) && Legal(TickNow(k))
    ensures Conserved(c, Tick(c, w, k), written, n') && n <= n' && (n < |written| ==> n < n')
  {
    hide Framed, CanBatch, BatchFrom, ReceivedAll;
    var out := if k.Some? then w.emitted + [k.value] else w.emitted;
    if k.Some? {
      KeyframeSilent(c, w.emitted, k.value);
    }
    if w.pending.None? && w.queue == [] {
      n' := n;
    } else {
      var ps := written[n..];
      HeldHead(c, w, ps);
      var m := SampleMoves(c, out, ps);
      n' := n + m;
      assert written[..n] + ps[..m] == written[..n'] && ps[m..] == written[n'..];
    }
  }

  /** Wire-path conservation: for any packets written and any ticks and keyframes in between, what
      the receiver has been handed and what the writer still holds are together exactly the
      packets written, in order, each once. */
  lemma {:induction false} WirePathConserves(c: Config, events: seq<Event>) returns (n: nat)
    requires (forall i :: 0 <= i < |events| ==> Legal(events[i])) && AllCarried(c, Written(events))
    ensures Conserved(c, Run(c, events), Written(events), n)
  {
    hide Tick, Framed, Conserved, Carries;
    if events == [] {
      n := 0;
      ConservedStart(c);
    } else {
      var pre, last := events[..|events| - 1], events[|events| - 1];
      assert forall i :: 0 <= i < |Written(pre)| ==> Written(pre)[i] == Written(events)[i];
      n := WirePathConserves(c, pre);
      match last {
        case Write(p) => WriteConserves(c, Run(c, pre), Written(pre), n, p);
        case TickNow(k) =>
          assert Written(pre) + [] == Written(pre);
          n := TickConserves(c, Run(c, pre), Written(pre), n, k);
      }
    }
  }

  lemma ConservedStart(c: Config)
    ensures Conserved(c, Pump([], None, []), [], 0)
  {
  }

  lemma RunOfOne(c: Config, p: seq<Byte>)
    ensures Run(c, [Write(p), TickNow(None)]) == Tick(c, Pump([Framed(c, p)], None, []), None)
  {
    hide Tick, Framed;
    var both := [Write(p), TickNow(None)];
    assert both[..1] == [Write(p)] && [Write(p)][..0] == [];
    assert Run(c, [Write(p)]) == Pump([Framed(c, p)], None, []);
  }

  /** The condition is exact: a packet that is not carried is not what the receiver gets when it
      is written alone and sent by the next tick. */
  lemma UncarriedPacketIsLost(c: Config, p: seq<Byte>)
    requires !Carries(c, p)
    ensures ReceivedAll(c, Run(c, [Write(p), TickNow(None)]).emitted) != [p]
  {
    RunOfOne(c, p);
    if c.batchSize > 1 {
      TooLongIsLost(c, p);
    } else {
      UncarriedSingle(c, p);
    }
  }

  lemma UncarriedSingle(c: Config, p: seq<Byte>)
    requires !Carries(c, p) && c.batchSize <= 1
    ensures ReceivedAll(c, Tick(c, Pump([Framed(c, p)], None, []), None).emitted) != [p]
  {
    assert Tick(c, Pump([Framed(c, p)], None, []), None).emitted == [] + [Framed(c, p)];
    hide Framed, Received;
    ReceivedSnoc(c, [], Framed(c, p));
    SingleFrameExact(c, p);
  }

  lemma TooLongIsLost(c: Config, p: seq<Byte>)
    requires !Carries(c, p) && c.batchSize > 1
    ensures ReceivedAll(c, Tick(c, Pump([Framed(c, p)], None, []), None).emitted) != [p]
  {
    FrameParts(c, p);
    var empty := c.Hdr() + BATCH_MAGIC;
    assert Tick(c, Pump([Framed(c, p)], None, []), None).emitted == [] + [empty] by {
      hide Received, Split;
    }
    ReceivedSnoc(c, [], empty);
    HeaderRoundTrip(c.sum, c.addr, BATCH_MAGIC);
    hide Tick, Framed;
    assert Received(c, empty) == [];
  }

  /** A frame small enough to share a sample with the headers. */
  ghost predicate SmallFrame(frame: seq<Byte>) {
    |frame| + |BATCH_MAGIC| + 2 <= MAX_SAMPLE
  }

  ghost predicate AllSmall(w: Pump) {
    && (forall i :: 0 <= i < |w.queue| ==> SmallFrame(w.queue[i]))
    && (w.pending.Some? ==> SmallFrame(w.pending.value))
    && forall i :: 0 <= i < |w.emitted| ==> |w.emitted[i]| <= MAX_SAMPLE
  }

  lemma {:induction false} FillSmall(c: Config, sample: seq<Byte>, src: seq<seq<Byte>>, packets: int)
    requires |sample| <= MAX_SAMPLE && forall i :: 0 <= i < |src| ==> SmallFrame(src[i])
    ensures var (out, carry, left) := Fill(c, sample, src, packets);
            && |out| <= MAX_SAMPLE && (carry.Some? ==> SmallFrame(carry.value))
            && forall i :: 0 <= i < |left| ==> SmallFrame(left[i])
    decreases |src|
  {
    if packets < c.batchSize && src != [] {
      assert forall i :: 0 <= i < |src[1..]| ==> src[1..][i] == src[i + 1];
      if |src[0]| <= HDR_LEN {
        FillSmall(c, sample, src[1..], packets + 1);
      } else {
        var payload := src[0][HDR_LEN..];
        if |sample| + 2 + |payload| <= MAX_SAMPLE {
          FillSmall(c, AppendPacket(sample, payload), src[1..], packets + 1);
        }
      }
    }
  }

  lemma TickSmall(c: Config, w: Pump, k: Option<seq<Byte>>)
    requires AllSmall(w) && Legal(TickNow(k))
    ensures AllSmall(Tick(c, w, k))
  {
    hide Fill, AppendPacket;
    if !(w.pending.None? && w.queue == []) {
      var (frame, rest) := if w.pending.Some? then (w.pending.value, w.queue) else (w.queue[0], w.queue[1..]);
      if CanBatch(c, frame) {
        FirstSmall(frame);
        FillSmall(c, AppendPacket(frame[..HDR_LEN] + BATCH_MAGIC, frame[HDR_LEN..]), rest, 1);
      }
    }
  }

  lemma FirstSmall(frame: seq<Byte>)
    requires SmallFrame(frame) && |frame| > HDR_LEN
    ensures |AppendPacket(frame[..HDR_LEN] + BATCH_MAGIC, frame[HDR_LEN..])| <= MAX_SAMPLE
  {
  }

  lemma FramedSmall(c: Config, p: seq<Byte>)
    requires FitsSample(c, p)
    ensures SmallFrame(Framed(c, p))
  {
    FrameParts(c, p);
  }

  /** Every sample stays within 60 KiB when each packet does together with the headers. */
  lemma {:induction false} SamplesBounded(c: Config, events: seq<Event>)
    requires forall i :: 0 <= i < |events| ==> Legal(events[i])
    requires forall i :: 0 <= i < |Written(events)| ==> FitsSample(c, Written(events)[i])
    ensures AllSmall(Run(c, events))
  {
    hide Tick, Framed, FitsSample, SmallFrame;
    if events != [] {
      var pre, last := events[..|events| - 1], events[|events| - 1];
      assert forall i :: 0 <= i < |Written(pre)| ==> Written(pre)[i] == Written(events)[i];
      SamplesBounded(c, pre);
      match last {
        case Write(p) =>
          assert Written(events)[|Written(pre)|] == p;
          FramedSmall(c, p);
        case TickNow(k) => TickSmall(c, Run(c, pre), k);
      }
    }
  }

  function Ticks(c: Config, w: Pump, k: nat): Pump {
    if k == 0 then w else Tick(c, Ticks(c, w, k - 1), None)
  }

  lemma {:induction false} TicksAdvance(c: Config, w: Pump, written: seq<seq<Byte>>, n: nat, k: nat) returns (m: nat)
    requires Conserved(c, w, written, n) && AllCarried(c, written)
    ensures Conserved(c, Ticks(c, w, k), written, m) && m >= Min(n + k, |written|)
  {
    hide Tick, Conserved, Carries;
    m := n;
    if k > 0 {
      m := TicksAdvance(c, w, written, n, k - 1);
      m := TickConserves(c, Ticks(c, w, k - 1), written, m, None);
    } else {
      ConservedWithin(c, w, written, n);
    }
    ConservedWithin(c, Ticks(c, w, k), written, m);
  }

  lemma ConservedWithin(c: Config, w: Pump, written: seq<seq<Byte>>, n: nat)
    requires Conserved(c, w, written, n)
    ensures n <= |written|
  {
  }

  /** Nothing stays behind: once writing stops, as many ticks as packets were written are enough
      for the receiver to have been handed every packet, in order. */
  lemma EverythingArrives(c: Config, events: seq<Event>, k: nat)
    requires (forall i :: 0 <= i < |events| ==> Legal(events[i])) && AllCarried(c, Written(events))
    requires k >= |Written(events)|
    ensures ReceivedAll(c, Ticks(c, Run(c, events), k).emitted) == Written(events)
    ensures Held(Ticks(c, Run(c, events), k)) == []
  {
    var n := WirePathConserves(c, events);
    var m := TicksAdvance(c, Run(c, events), Written(events), n, k);
    assert Written(events)[..m] == Written(events) && Written(events)[m..] == [];
  }
}
