/** Assembly of VP8 frames from RTP packets in sequence order. */
module FrameAssembly {
  import opened Bytes

  const EPOCH_HDR_LEN := 36
  const MAX_PAYLOAD_SIZE := 60 * 1024
  const MAX_ASSEMBLED := 4 * MAX_PAYLOAD_SIZE

  datatype Packet = Packet(seqNo: U16, marker: bool, payload: seq<Byte>)

  /** What the VP8 depacketizer reads from an RTP payload: the start-of-partition bit and the VP8
      bytes, or nothing when the payload is malformed. */
  datatype Vp8 = Vp8(start: bool, data: seq<Byte>)

  type Depacketizer = seq<Byte> -> Option<Vp8>

  datatype State = State(buf: seq<Byte>, lastSeq: U16, haveLast: bool, valid: bool)

  const INITIAL := State([], 0, false, false)

  /** processRTPPacket on values: the new state and the frame returned, if any. */
  function Process(vp8: Depacketizer, st: State, pkt: Packet): (State, Option<seq<Byte>>) {
    var gap := st.haveLast && pkt.seqNo != Succ16(st.lastSeq);
    var st1 := State(if gap then [] else st.buf, pkt.seqNo, true, st.valid && !gap);
    match vp8(pkt.payload)
    case None => (st1.(buf := [], valid := false), None)
    case Some(v) =>
      var st2 := if v.start then st1.(buf := [], valid := true) else st1;
      if !st2.valid then (st2, None)
      else if |st2.buf| + |v.data| > MAX_ASSEMBLED then (st2.(buf := [], valid := false), None)
      else
        var frame := st2.buf + v.data;
        if !pkt.marker then (st2.(buf := frame), None)
        else (st2.(buf := [], valid := false), if |frame| >= EPOCH_HDR_LEN then Some(frame) else None)
  }

  class Vp8FrameState {
    const vp8: Depacketizer
    var frameBuf: seq<Byte>
    var lastSeq: U16
    var haveLastSeq: bool
    var frameValid: bool

    ghost function View(): State
      reads this
    {
      State(frameBuf, lastSeq, haveLastSeq, frameValid)
    }

    constructor (vp8: Depacketizer)
      ensures View() == INITIAL && this.vp8 == vp8
    {
      this.vp8 := vp8;
      frameBuf, lastSeq, haveLastSeq, frameValid := [], 0, false, false;
    }

    method ProcessRtpPacket(pkt: Packet) returns (frame: Option<seq<Byte>>)
      modifies this
      ensures (View(), frame) == Process(vp8, old(View()), pkt)
    {
      if haveLastSeq && pkt.seqNo != Succ16(lastSeq) {
        frameValid := false;
        frameBuf := [];
      }
      lastSeq := pkt.seqNo;
      haveLastSeq := true;

      var parsed := vp8(pkt.payload);
      if parsed.None? {
        frameValid := false;
        frameBuf := [];
        return None;
      }
      if parsed.value.start {
        frameBuf := [];
        frameValid := true;
      }
      if !frameValid {
        return None;
      }
      if |frameBuf| + |parsed.value.data| > MAX_ASSEMBLED {
        frameValid := false;
        frameBuf := [];
        return None;
      }
      frameBuf := frameBuf + parsed.value.data;
      if !pkt.marker {
        return None;
      }
      var whole := frameBuf;
      frameBuf := [];
      frameValid := false;
      if |whole| >= EPOCH_HDR_LEN {
        return Some(whole);
      }
      return None;
    }
  }

  // ----------------------------------------------------------- whole streams

  function After(vp8: Depacketizer, pkts: seq<Packet>): State {
    if pkts == [] then INITIAL
    else Process(vp8, After(vp8, pkts[..|pkts| - 1]), pkts[|pkts| - 1]).0
  }

  /** The frame returned for the last packet of a stream, if any. */
  function Emitted(vp8: Depacketizer, pkts: seq<Packet>): Option<seq<Byte>>
    requires pkts != []
  {
    Process(vp8, After(vp8, pkts[..|pkts| - 1]), pkts[|pkts| - 1]).1
  }

  /** All frames returned over a stream, in order. */
  function Frames(vp8: Depacketizer, pkts: seq<Packet>): seq<seq<Byte>> {
    if pkts == [] then []
    else
      var before := Frames(vp8, pkts[..|pkts| - 1]);
      if Emitted(vp8, pkts).Some? then before + [Emitted(vp8, pkts).value] else before
  }

  // ------------------------------------- which frames: a definition by shape

  predicate Parses(vp8: Depacketizer, p: Packet) {
    vp8(p.payload).Some?
  }

  predicate Starts(vp8: Depacketizer, p: Packet) {
    Parses(vp8, p) && vp8(p.payload).value.start
  }

  /** From index `i` to its end the stream is one frame so far: it begins at a start bit, its
      packets parse and are consecutively numbered, and no other start bit and no earlier marker
      occurs. */
  ghost predicate Shape(vp8: Depacketizer, pkts: seq<Packet>, i: nat) {
    && i < |pkts| && Starts(vp8, pkts[i])
    && (forall k :: i < k < |pkts| ==>
          Parses(vp8, pkts[k]) && !Starts(vp8, pkts[k]) && pkts[k].seqNo == Succ16(pkts[k - 1].seqNo))
    && (forall k :: i <= k < |pkts| - 1 ==> !pkts[k].marker)
  }

  /** The VP8 bytes of the packets from `i` on. */
  function Body(vp8: Depacketizer, pkts: seq<Packet>, i: nat): seq<Byte>
    requires i <= |pkts|
    decreases |pkts|
  {
    if i == |pkts| then []
    else
      var p := pkts[|pkts| - 1];
      Body(vp8, pkts[..|pkts| - 1], i) + (if Parses(vp8, p) then vp8(p.payload).value.data else [])
  }

  ghost predicate IsOpen(vp8: Depacketizer, pkts: seq<Packet>, i: nat) {
    Shape(vp8, pkts, i) && !pkts[|pkts| - 1].marker && |Body(vp8, pkts, i)| <= MAX_ASSEMBLED
  }

  ghost predicate IsFrame(vp8: Depacketizer, pkts: seq<Packet>, i: nat) {
    && Shape(vp8, pkts, i) && pkts[|pkts| - 1].marker
    && EPOCH_HDR_LEN <= |Body(vp8, pkts, i)| <= MAX_ASSEMBLED
  }

  /** The state is valid exactly while a frame is open, and the buffer is its bytes. */
  ghost predicate Tracks(vp8: Depacketizer, pkts: seq<Packet>, st: State) {
    && (st.valid ==> exists i :: IsOpen(vp8, pkts, i))
    && (forall i :: IsOpen(vp8, pkts, i) ==> st.valid && st.buf == Body(vp8, pkts, i))
    && (st.haveLast <==> pkts != [])
    && (pkts != [] ==> st.lastSeq == pkts[|pkts| - 1].seqNo)
  }

  /** How a shape grows by one packet. */
  lemma ShapeSnoc(vp8: Depacketizer, pkts: seq<Packet>, p: Packet, i: nat)
    ensures Shape(vp8, pkts + [p], i) <==>
              if i == |pkts| then Starts(vp8, p)
              else && Shape(vp8, pkts, i) && !pkts[|pkts| - 1].marker
                   && Parses(vp8, p) && !Starts(vp8, p) && p.seqNo == Succ16(pkts[|pkts| - 1].seqNo)
  {
    var q := pkts + [p];
    assert forall k :: 0 <= k < |pkts| ==> q[k] == pkts[k];
    assert q[|pkts|] == p;
    if Shape(vp8, q, i) && i < |pkts| {
      assert forall k :: i <= k < |pkts| - 1 ==> !q[k].marker;
      assert Shape(vp8, pkts, i);
      assert !q[|pkts| - 1].marker;
    }
  }

  lemma BodySnoc(vp8: Depacketizer, pkts: seq<Packet>, p: Packet, i: nat)
    requires i <= |pkts|
    ensures Body(vp8, pkts + [p], i)
         == Body(vp8, pkts, i) + (if Parses(vp8, p) then vp8(p.payload).value.data else [])
    ensures Body(vp8, pkts, |pkts|) == []
  {
    assert (pkts + [p])[..|pkts|] == pkts;
  }

  lemma OpenUnique(vp8: Depacketizer, pkts: seq<Packet>, i: nat, j: nat)
    requires Shape(vp8, pkts, i) && Shape(vp8, pkts, j)
    ensures i == j
  {
  }

  /** A packet that starts a frame, whatever came before. */
  lemma StepStart(vp8: Depacketizer, pkts: seq<Packet>, st: State, p: Packet)
    requires Tracks(vp8, pkts, st) && Starts(vp8, p)
    ensures var (st', f) := Process(vp8, st, p);
            && Tracks(vp8, pkts + [p], st')
            && (f.Some? <==> IsFrame(vp8, pkts + [p], |pkts|))
            && (f.Some? ==> f.value == Body(vp8, pkts + [p], |pkts|))
            && forall i :: IsFrame(vp8, pkts + [p], i) ==> i == |pkts|
  {
    var n, q := |pkts|, pkts + [p];
    ShapeSnoc(vp8, pkts, p, n);
    BodySnoc(vp8, pkts, p, n);
    forall i | Shape(vp8, q, i) ensures i == n {
      OpenUnique(vp8, q, i, n);
    }
    if Process(vp8, st, p).0.valid {
      assert IsOpen(vp8, q, n);
    }
  }

  /** A packet that continues the open frame, if there is one. */
  lemma StepContinue(vp8: Depacketizer, pkts: seq<Packet>, st: State, p: Packet, o: nat)
    requires Tracks(vp8, pkts, st) && IsOpen(vp8, pkts, o)
    requires Parses(vp8, p) && !Starts(vp8, p) && p.seqNo == Succ16(pkts[|pkts| - 1].seqNo)
    ensures var (st', f) := Process(vp8, st, p);
            && Tracks(vp8, pkts + [p], st')
            && (f.Some? <==> IsFrame(vp8, pkts + [p], o))
            && (f.Some? ==> f.value == Body(vp8, pkts + [p], o))
            && forall i :: IsFrame(vp8, pkts + [p], i) ==> i == o
  {
    var q := pkts + [p];
    ShapeSnoc(vp8, pkts, p, o);
    BodySnoc(vp8, pkts, p, o);
    forall i | Shape(vp8, q, i) ensures i == o {
      OpenUnique(vp8, q, i, o);
    }
    if Process(vp8, st, p).0.valid {
      assert IsOpen(vp8, q, o);
    }
  }

  /** A packet that cannot extend anything leaves no frame open. */
  lemma StepBreak(vp8: Depacketizer, pkts: seq<Packet>, st: State, p: Packet)
    requires Tracks(vp8, pkts, st) && !Starts(vp8, p)
    requires Parses(vp8, p) && pkts != [] && p.seqNo == Succ16(pkts[|pkts| - 1].seqNo)
             ==> forall i :: !IsOpen(vp8, pkts, i)
    ensures var (st', f) := Process(vp8, st, p);
            Tracks(vp8, pkts + [p], st') && f.None? && forall i :: !IsFrame(vp8, pkts + [p], i)
  {
    var q := pkts + [p];
    forall i ensures !IsOpen(vp8, q, i) && !IsFrame(vp8, q, i) {
      ShapeSnoc(vp8, pkts, p, i);
      if Shape(vp8, q, i) {
        BodySnoc(vp8, pkts, p, i);
        assert |Body(vp8, pkts, i)| > MAX_ASSEMBLED;
      }
    }
  }

  lemma StepTracks(vp8: Depacketizer, pkts: seq<Packet>, st: State, p: Packet)
    requires Tracks(vp8, pkts, st)
    ensures var (st', f) := Process(vp8, st, p);
            && Tracks(vp8, pkts + [p], st')
            && (f.Some? <==> exists i :: IsFrame(vp8, pkts + [p], i))
            && (forall i :: IsFrame(vp8, pkts + [p], i) ==> f == Some(Body(vp8, pkts + [p], i)))
  {
    hide Process, Tracks, IsFrame;
    if Starts(vp8, p) {
      StepStart(vp8, pkts, st, p);
    } else if Parses(vp8, p) && pkts != [] && p.seqNo == Succ16(pkts[|pkts| - 1].seqNo)
              && exists o :: IsOpen(vp8, pkts, o) {
      var o :| IsOpen(vp8, pkts, o);
      StepContinue(vp8, pkts, st, p, o);
    } else {
      StepBreak(vp8, pkts, st, p);
    }
  }

  lemma {:induction false} StreamTracks(vp8: Depacketizer, pkts: seq<Packet>)
    ensures Tracks(vp8, pkts, After(vp8, pkts))
  {
    if pkts != [] {
      hide Tracks, Process, IsFrame;
      var pre := pkts[..|pkts| - 1];
      StreamTracks(vp8, pre);
      StepTracks(vp8, pre, After(vp8, pre), pkts[|pkts| - 1]);
      assert pre + [pkts[|pkts| - 1]] == pkts;
    }
  }

  /** Exactly the frames: the last packet of a stream returns a frame if and only if some run of
      consecutively numbered, well-formed packets from one start bit to that packet's marker holds
      between 36 bytes and the size cap, and then it returns exactly those bytes. */
  lemma EmittedExactly(vp8: Depacketizer, pkts: seq<Packet>)
    requires pkts != []
    ensures Emitted(vp8, pkts).Some? <==> exists i :: IsFrame(vp8, pkts, i)
    ensures forall i :: IsFrame(vp8, pkts, i) ==> Emitted(vp8, pkts) == Some(Body(vp8, pkts, i))
  {
    hide Tracks, Process, IsFrame;
    var pre := pkts[..|pkts| - 1];
    StreamTracks(vp8, pre);
    StepTracks(vp8, pre, After(vp8, pre), pkts[|pkts| - 1]);
    assert pre + [pkts[|pkts| - 1]] == pkts;
  }
}
