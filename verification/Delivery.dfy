/** The ack-based transport end to end: one sender, one receiver, and a network that loses,
    repeats and reorders the encoded frames it carries and may add any frame that the parties
    reject. Every run of Step from Start is a run of the system. */
module Delivery {
  import opened Bytes
  import opened FrameCodec
  import opened Reassembly
  import opened ReassemblyProperties
  import AckTracking

  type Waiter = AckTracking.Waiter

  /** `role` and `remoteRole` are stamped by the sender and the receiver. */
  datatype Config = Config(
    sum: Checksum, role: Byte, remoteRole: Byte, binding: U32, chunkSize: int, maxAttempts: int)

  datatype Phase = Idle | Queueing(attempt: nat, todo: seq<nat>) | Awaiting(attempt: nat)

  datatype Outcome = Sent | AckTimeout | TransportClosed

  datatype Logged = Logged(seqNo: U32, crc: U32, data: seq<Byte>)

  /** `sent` and `results` record the Send calls in order; a mutex serialises them. */
  datatype Sender = Sender(
    seqCounter: U32, sent: seq<Message>, results: seq<Outcome>, phase: Phase, waiter: Option<Waiter>)

  /** `log` is what was handed to onData and `base` its length at the last Reset. `lost` is a record
      that no step looks at: the fragments, by sequence number and index, that an eviction or a
      Reset dropped from the open entry of an undelivered message and that were not stored since. */
  datatype Receiver = Receiver(re: State, log: seq<Logged>, base: nat, lost: set<(U32, nat)>)

  /** `wire` holds every frame ever put on the network; a frame stays deliverable for ever. */
  datatype System = System(snd: Sender, wire: set<seq<Byte>>, rcv: Receiver)

  datatype Event =
    | StartSend(data: seq<Byte>)
    | Enqueue
    | AwaitDone
    | AwaitTimeout
    | CloseTransport
    | ToReceiver(b: seq<Byte>)
    | ToSender(b: seq<Byte>)
    | Inject(b: seq<Byte>)
    | ResetReceiver

  function Start(maxRecent: nat): System
    requires maxRecent >= 1
  {
    System(Sender(0, [], [], Idle, None), {},
           Receiver(State(map[], map[], map[], maxRecent, maxRecent, 0), [], 0, {}))
  }

  // ----------------------------------------------------------------- actions

  function Indices(n: nat): seq<nat> {
    seq(n, i => i)
  }

  /** The unacknowledged indices, ascending. */
  function Unacked(acked: seq<bool>, from: nat): seq<nat>
    requires from <= |acked|
    decreases |acked| - from
  {
    if from == |acked| then []
    else if acked[from] then Unacked(acked, from + 1)
    else [from] + Unacked(acked, from + 1)
  }

  function DataOf(c: Config, m: Message, i: nat): seq<Byte>
    requires i < |m.Chunks()|
  {
    DataBytes(c.sum, c.role, c.binding, m.seqNo, c.sum(m.data), |m.data|, i, |m.Chunks()|, m.Chunks()[i])
  }

  function AckOf(c: Config, seqNo: U32, crc: U32, idx: U16): seq<Byte> {
    AckBytes(c.remoteRole, c.binding, seqNo, crc, idx)
  }

  function FragmentOf(f: Frame): Fragment {
    Fragment(f.seqNo, f.crc, f.totalLen, f.fragIdx, f.fragTotal, f.fragCrc, f.payload)
  }

  /** The fragment the receiver processes when `b` arrives, if any. */
  function Incoming(c: Config, b: seq<Byte>): Option<Fragment> {
    match DecodeFrame(b)
    case Err(_) => None
    case Ok(f) => if f.AcceptedBy(c.role, c.binding) && f.typ == TYPE_DATA then Some(FragmentOf(f)) else None
  }

  /** The acknowledgement the sender resolves when `b` arrives, if any. */
  function IncomingAck(c: Config, b: seq<Byte>): Option<(U32, U32, U16)> {
    match DecodeFrame(b)
    case Err(_) => None
    case Ok(f) =>
      if f.AcceptedBy(c.remoteRole, c.binding) && f.typ == TYPE_ACK then Some((f.seqNo, f.crc, f.fragIdx)) else None
  }

  /** Frames that neither party acts on: undecodable, of another session, or failing their checksum. */
  predicate Foreign(c: Config, b: seq<Byte>) {
    && IncomingAck(c, b).None?
    && match Incoming(c, b)
       case None => true
       case Some(f) => !f.Valid(c.sum)
  }

  function Finished(snd: Sender, r: Outcome): Sender {
    snd.(results := snd.results + [r], phase := Idle, waiter := None)
  }

  predicate Enabled(c: Config, s: System, e: Event) {
    match e
    case StartSend(_) => s.snd.phase.Idle?
    case Enqueue => CanQueue(s.snd)
    case AwaitDone => s.snd.phase.Awaiting? && s.snd.waiter.Some? && s.snd.waiter.value.remaining == 0
    case AwaitTimeout => s.snd.phase.Awaiting? && s.snd.waiter.Some?
    case CloseTransport => !s.snd.phase.Idle?
    case ToReceiver(b) => b in s.wire
    case ToSender(b) => b in s.wire
    case Inject(b) => Foreign(c, b)
    case ResetReceiver => true
  }

  predicate CanQueue(snd: Sender) {
    && snd.phase.Queueing? && |snd.sent| > 0
    && forall k :: 0 <= k < |snd.phase.todo| ==> snd.phase.todo[k] < |snd.sent[|snd.sent| - 1].Chunks()|
  }

  function Begin(c: Config, snd: Sender, data: seq<Byte>): Sender {
    var seqNo := ToU32(snd.seqCounter + 1);
    var m := Message(seqNo, data, c.chunkSize);
    var snd' := snd.(seqCounter := seqNo, sent := snd.sent + [m]);
    if c.maxAttempts <= 0 then Finished(snd', AckTimeout)
    else snd'.(phase := Queueing(0, Indices(|m.Chunks()|)),
               waiter := Some(AckTracking.Fresh(c.sum(data), |m.Chunks()|)))
  }

  function QueueNext(c: Config, s: System): System
    requires CanQueue(s.snd)
  {
    var Queueing(attempt, todo) := s.snd.phase;
    if todo == [] then s.(snd := s.snd.(phase := Awaiting(attempt)))
    else s.(wire := s.wire + {DataOf(c, s.snd.sent[|s.snd.sent| - 1], todo[0])},
            snd := s.snd.(phase := Queueing(attempt, todo[1..])))
  }

  function TimedOut(c: Config, snd: Sender): Sender
    requires snd.phase.Awaiting? && snd.waiter.Some?
  {
    var pending := Unacked(snd.waiter.value.acked, 0);
    if snd.waiter.value.remaining == 0 || pending == [] then Finished(snd, Sent)
    else if snd.phase.attempt + 1 < c.maxAttempts then snd.(phase := Queueing(snd.phase.attempt + 1, pending))
    else Finished(snd, AckTimeout)
  }

  ghost predicate InLog(log: seq<Logged>, q: U32) {
    exists j :: 0 <= j < |log| && log[j].seqNo == q
  }

  /** The fragments that go with the open entry of message `q`. */
  ghost function DroppedWith(rcv: Receiver, q: U32): set<(U32, nat)> {
    if InLog(rcv.log, q) then {} else set i | i in GotIn(rcv.re, q) :: (q, i)
  }

  ghost function Evicted(c: Config, rcv: Receiver, f: Fragment): set<(U32, nat)> {
    match VictimOf(c.sum, rcv.re, f)
    case None => {}
    case Some(v) => DroppedWith(rcv, v)
  }

  /** DeliverFragment: push and hand over a completed message. */
  ghost function Receive(c: Config, rcv: Receiver, f: Fragment): Receiver {
    var (re, r) := Push(c.sum, rcv.re, f);
    var storedNow: set<(U32, nat)> := if r.Partial? || r.Delivered? then {(f.seqNo, f.idx)} else {};
    rcv.(re := re,
         log := if r.Delivered? then rcv.log + [Logged(f.seqNo, f.crc, r.data)] else rcv.log,
         lost := rcv.lost + Evicted(c, rcv, f) - storedNow)
  }

  /** The ack DeliverFragment queues: none for an ignored fragment. */
  ghost function AcksFor(c: Config, rcv: Receiver, f: Fragment): set<seq<Byte>> {
    if Push(c.sum, rcv.re, f).1.Ignore? then {} else {AckOf(c, f.seqNo, f.crc, f.idx)}
  }

  function Resolve(snd: Sender, a: (U32, U32, U16)): Sender {
    if snd.waiter.None? || |snd.sent| == 0 || snd.sent[|snd.sent| - 1].seqNo != a.0 then snd
    else snd.(waiter := Some(AckTracking.Marked(snd.waiter.value, a.1, a.2)))
  }

  ghost function Cleared(rcv: Receiver): Receiver {
    var dropped := set q, p | q in rcv.re.inbound && p in DroppedWith(rcv, q) :: p;
    rcv.(re := rcv.re.(inbound := map[], delivered := map[], previous := map[], addCounter := 0),
         base := |rcv.log|, lost := rcv.lost + dropped)
  }

  ghost function Step(c: Config, s: System, e: Event): System
    requires Enabled(c, s, e)
  {
    match e
    case StartSend(data) => s.(snd := Begin(c, s.snd, data))
    case Enqueue => QueueNext(c, s)
    case AwaitDone => s.(snd := Finished(s.snd, Sent))
    case AwaitTimeout => s.(snd := TimedOut(c, s.snd))
    case CloseTransport => s.(snd := Finished(s.snd, TransportClosed))
    case ToReceiver(b) =>
      if Incoming(c, b).None? then s
      else s.(rcv := Receive(c, s.rcv, Incoming(c, b).value), wire := s.wire + AcksFor(c, s.rcv, Incoming(c, b).value))
    case ToSender(b) =>
      if IncomingAck(c, b).None? then s else s.(snd := Resolve(s.snd, IncomingAck(c, b).value))
    case Inject(b) => s.(wire := s.wire + {b})
    case ResetReceiver => s.(rcv := Cleared(s.rcv))
  }

  ghost predicate IsRun(c: Config, states: seq<System>, events: seq<Event>) {
    && |states| == |events| + 1
    && (exists n: nat :: n >= 1 && states[0] == Start(n))
    && forall k :: 0 <= k < |events| ==> Enabled(c, states[k], events[k]) && states[k + 1] == Step(c, states[k], events[k])
  }
}
