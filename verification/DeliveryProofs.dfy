/** Safety of the ack-based transport over every run: a Send that returns nil was delivered. */
module DeliveryProofs {
  import opened Bytes
  import opened FrameCodec
  import opened Reassembly
  import opened ReassemblyProperties
  import opened Delivery
  import AckTracking

  // --------------------------------------------------------------- invariants

  ghost predicate Numbered(sent: seq<Message>) {
    && |sent| < 0x1_0000_0000
    && forall k :: 0 <= k < |sent| ==> sent[k].seqNo == k + 1
  }

  ghost predicate KnownSeq(sent: seq<Message>, q: U32) {
    1 <= q <= |sent|
  }

  ghost predicate IsStored(re: State, q: U32, i: nat) {
    q in re.inbound && i < |re.inbound[q].frags| && re.inbound[q].frags[i].Some?
  }

  /** What an acknowledgement of fragment `i` of message `q` stands for: the receiver stores the
      fragment, or has delivered the message, or has lost the fragment. */
  ghost predicate Secured(sent: seq<Message>, rcv: Receiver, q: U32, i: nat) {
    && KnownSeq(sent, q)
    && i < ToU16(|sent[q - 1].Chunks()|)
    && (sent[q - 1].Fits() ==> IsStored(rcv.re, q, i) || InLog(rcv.log, q) || (q, i) in rcv.lost)
  }

  /** A lost fragment is not stored and its message is not delivered. */
  ghost predicate LostTruly(sent: seq<Message>, rcv: Receiver, q: U32, i: nat) {
    && KnownSeq(sent, q)
    && (sent[q - 1].Fits() ==> i < |sent[q - 1].Chunks()| && !IsStored(rcv.re, q, i) && !InLog(rcv.log, q))
  }

  ghost predicate LostInv(sent: seq<Message>, rcv: Receiver) {
    forall p :: p in rcv.lost ==> LostTruly(sent, rcv, p.0, p.1)
  }

  ghost predicate IsDataFrame(c: Config, sent: seq<Message>, b: seq<Byte>, q: U32, i: nat) {
    KnownSeq(sent, q) && i < |sent[q - 1].Chunks()| && b == DataOf(c, sent[q - 1], i)
  }

  ghost predicate IsAckFrame(c: Config, sent: seq<Message>, rcv: Receiver, b: seq<Byte>, q: U32, i: U16) {
    Secured(sent, rcv, q, i) && b == AckOf(c, q, c.sum(sent[q - 1].data), i)
  }

  ghost predicate Accounted(c: Config, sent: seq<Message>, rcv: Receiver, b: seq<Byte>) {
    || Foreign(c, b)
    || (exists q, i :: IsDataFrame(c, sent, b, q, i))
    || (exists q, i :: IsAckFrame(c, sent, rcv, b, q, i))
  }

  ghost predicate WireInv(c: Config, sent: seq<Message>, rcv: Receiver, wire: set<seq<Byte>>) {
    forall b :: b in wire ==> Accounted(c, sent, rcv, b)
  }

  ghost predicate EntryHonest(c: Config, sent: seq<Message>, e: Entry, q: U32) {
    KnownSeq(sent, q) && (sent[q - 1].Fits() ==> Consistent(c.sum, e, sent[q - 1]))
  }

  ghost predicate EntriesHonest(c: Config, sent: seq<Message>, inbound: map<U32, Entry>) {
    forall q :: q in inbound ==> EntryHonest(c, sent, inbound[q], q)
  }

  ghost predicate AllLogged(window: map<U32, U32>, log: seq<Logged>) {
    forall q :: q in window ==> InLog(log, q)
  }

  ghost predicate LogEntryHonest(c: Config, sent: seq<Message>, l: Logged) {
    && KnownSeq(sent, l.seqNo)
    && l.crc == c.sum(sent[l.seqNo - 1].data)
    && (sent[l.seqNo - 1].Fits() ==> l.data == sent[l.seqNo - 1].data)
  }

  ghost predicate LogHonest(c: Config, sent: seq<Message>, log: seq<Logged>) {
    forall j :: 0 <= j < |log| ==> LogEntryHonest(c, sent, log[j])
  }

  /** The last deliveries since a Reset are remembered, up to `maxRecent` deliveries back. */
  ghost predicate RecentRemembered(rcv: Receiver) {
    forall j :: rcv.base <= j < |rcv.log| && |rcv.log| - 1 - j <= rcv.re.maxRecent ==>
      Remembers(rcv.re, rcv.log[j].seqNo, rcv.log[j].crc, |rcv.log| - 1 - j)
  }

  /** Since the last Reset, two deliveries of one sequence number are over `maxRecent` apart. */
  ghost predicate Spaced(rcv: Receiver) {
    forall i, j :: rcv.base <= i < j < |rcv.log| && rcv.log[i].seqNo == rcv.log[j].seqNo ==>
      j - i > rcv.re.maxRecent
  }

  ghost predicate RecvInv(c: Config, sent: seq<Message>, rcv: Receiver) {
    && Inv(rcv.re)
    && EntriesHonest(c, sent, rcv.re.inbound)
    && AllLogged(rcv.re.delivered, rcv.log) && AllLogged(rcv.re.previous, rcv.log)
    && LogHonest(c, sent, rcv.log)
    && rcv.base <= |rcv.log| && RecentRemembered(rcv) && Spaced(rcv)
    && LostInv(sent, rcv)
  }

  /** Acknowledged implies stored, delivered or lost. */
  ghost predicate WaiterInv(c: Config, sent: seq<Message>, rcv: Receiver, w: Waiter) {
    && |sent| > 0
    && var m := sent[|sent| - 1];
       && AckTracking.Consistent(w) && w.crc == c.sum(m.data) && |w.acked| == |m.Chunks()|
       && AckedSecured(sent, rcv, w.acked, m.seqNo)
  }

  ghost predicate AckedSecured(sent: seq<Message>, rcv: Receiver, acked: seq<bool>, q: U32) {
    forall i :: 0 <= i < |acked| && acked[i] ==> Secured(sent, rcv, q, i)
  }

  /** What a nil result of the Send of message `m` means. */
  ghost predicate Confirmed(sent: seq<Message>, rcv: Receiver, q: U32) {
    KnownSeq(sent, q) && |sent[q - 1].Chunks()| >= 1 &&
    (|sent[q - 1].data| < 0x1_0000_0000 ==>
       sent[q - 1].Fits() && forall i: nat :: i < |sent[q - 1].Chunks()| ==> Secured(sent, rcv, q, i))
  }

  ghost predicate ResultsHonest(sent: seq<Message>, results: seq<Outcome>, rcv: Receiver) {
    |results| <= |sent| < 0x1_0000_0000 && forall k :: 0 <= k < |results| && results[k] == Sent ==> Confirmed(sent, rcv, k + 1)
  }

  ghost predicate PhaseInv(snd: Sender) {
    && snd.seqCounter == |snd.sent|
    && (snd.phase.Idle? <==> snd.waiter.None?)
    && |snd.results| == (if snd.phase.Idle? then |snd.sent| else |snd.sent| - 1)
    && (snd.phase.Queueing? ==> CanQueue(snd))
  }

  ghost predicate SysInv(c: Config, s: System) {
    && Numbered(s.snd.sent) && PhaseInv(s.snd)
    && (s.snd.waiter.Some? ==> WaiterInv(c, s.snd.sent, s.rcv, s.snd.waiter.value))
    && ResultsHonest(s.snd.sent, s.snd.results, s.rcv)
    && RecvInv(c, s.snd.sent, s.rcv)
    && WireInv(c, s.snd.sent, s.rcv, s.wire)
  }

  // -------------------------------------------------------------- monotonicity

  /** More was sent and logged, and every secured fragment stays secured. */
  ghost predicate Extends(sent: seq<Message>, rcv: Receiver, sent': seq<Message>, rcv': Receiver) {
    && sent <= sent' && rcv.log <= rcv'.log
    && forall q, i {:trigger Secured(sent', rcv', q, i)} {:trigger Secured(sent, rcv, q, i)} ::
         Secured(sent, rcv, q, i) ==> Secured(sent', rcv', q, i)
  }

  lemma InLogKept(log: seq<Logged>, log': seq<Logged>, q: U32)
    requires log <= log' && InLog(log, q)
    ensures InLog(log', q)
  {
    var j :| 0 <= j < |log| && log[j].seqNo == q;
    assert log'[j] == log[j];
  }

  lemma AccountedKept(
    c: Config, sent: seq<Message>, rcv: Receiver, sent': seq<Message>, rcv': Receiver, b: seq<Byte>)
    requires Extends(sent, rcv, sent', rcv') && Accounted(c, sent, rcv, b)
    ensures Accounted(c, sent', rcv', b)
  {
    if !Foreign(c, b) {
      if q, i :| IsDataFrame(c, sent, b, q, i) {
        assert IsDataFrame(c, sent', b, q, i);
      } else {
        var q, i :| IsAckFrame(c, sent, rcv, b, q, i);
        assert IsAckFrame(c, sent', rcv', b, q, i);
      }
    }
  }

  lemma WireKept(
    c: Config, sent: seq<Message>, rcv: Receiver, sent': seq<Message>, rcv': Receiver, wire: set<seq<Byte>>)
    requires Extends(sent, rcv, sent', rcv') && WireInv(c, sent, rcv, wire)
    ensures WireInv(c, sent', rcv', wire)
  {
    forall b | b in wire ensures Accounted(c, sent', rcv', b) {
      AccountedKept(c, sent, rcv, sent', rcv', b);
    }
  }

  lemma ResultsKept(
    sent: seq<Message>, rcv: Receiver, sent': seq<Message>, rcv': Receiver, results: seq<Outcome>)
    requires Extends(sent, rcv, sent', rcv') && ResultsHonest(sent, results, rcv) && |sent'| < 0x1_0000_0000
    ensures ResultsHonest(sent', results, rcv')
  {
    hide Secured;
    forall k | 0 <= k < |results| && results[k] == Sent ensures Confirmed(sent', rcv', k + 1) {
      var q: U32 := k + 1;
      assert Confirmed(sent, rcv, q);
      assert forall i: nat :: Secured(sent, rcv, q, i) ==> Secured(sent', rcv', q, i);
    }
  }

  // ------------------------------------------------------------ sender events

  lemma SendExtends(sent: seq<Message>, rcv: Receiver, m: Message)
    ensures Extends(sent, rcv, sent + [m], rcv)
  {
  }

  lemma HonestyKept(c: Config, sent: seq<Message>, m: Message, rcv: Receiver)
    requires RecvInv(c, sent, rcv)
    ensures RecvInv(c, sent + [m], rcv)
  {
    forall q | q in rcv.re.inbound ensures EntryHonest(c, sent + [m], rcv.re.inbound[q], q) {
      assert EntryHonest(c, sent, rcv.re.inbound[q], q);
    }
    forall j | 0 <= j < |rcv.log| ensures LogEntryHonest(c, sent + [m], rcv.log[j]) {
      assert LogEntryHonest(c, sent, rcv.log[j]);
    }
    forall p | p in rcv.lost ensures LostTruly(sent + [m], rcv, p.0, p.1) {
      assert LostTruly(sent, rcv, p.0, p.1);
    }
  }

  lemma BeginSender(c: Config, snd: Sender, rcv: Receiver, data: seq<Byte>)
    requires Numbered(snd.sent) && PhaseInv(snd) && snd.phase.Idle? && |snd.sent| + 1 < 0x1_0000_0000
    ensures var snd' := Begin(c, snd, data);
            && Numbered(snd'.sent) && PhaseInv(snd')
            && (snd'.waiter.Some? ==> WaiterInv(c, snd'.sent, rcv, snd'.waiter.value))
  {
    hide Secured;
    AckTracking.CountUnackedFresh(|Message(0, data, c.chunkSize).Chunks()|);
    AckTracking.CountUnackedFresh(|Message(snd.seqCounter + 1, data, c.chunkSize).Chunks()|);
  }

  lemma BeginResults(c: Config, snd: Sender, rcv: Receiver, data: seq<Byte>)
    requires ResultsHonest(snd.sent, snd.results, rcv) && PhaseInv(snd) && snd.phase.Idle?
    requires |snd.sent| + 1 < 0x1_0000_0000
    ensures var snd' := Begin(c, snd, data); ResultsHonest(snd'.sent, snd'.results, rcv)
  {
    var snd' := Begin(c, snd, data);
    SendExtends(snd.sent, rcv, snd'.sent[|snd.sent|]);
    ResultsKept(snd.sent, rcv, snd'.sent, rcv, snd.results);
  }

  lemma BeginKeeps(c: Config, s: System, data: seq<Byte>)
    requires SysInv(c, s) && s.snd.phase.Idle? && |s.snd.sent| + 1 < 0x1_0000_0000
    ensures SysInv(c, s.(snd := Begin(c, s.snd, data)))
  {
    var snd' := Begin(c, s.snd, data);
    var m := snd'.sent[|s.snd.sent|];
    BeginSender(c, s.snd, s.rcv, data);
    BeginResults(c, s.snd, s.rcv, data);
    SendExtends(s.snd.sent, s.rcv, m);
    HonestyKept(c, s.snd.sent, m, s.rcv);
    WireKept(c, s.snd.sent, s.rcv, snd'.sent, s.rcv, s.wire);
  }

  lemma EnqueueKeeps(c: Config, s: System)
    requires SysInv(c, s) && CanQueue(s.snd)
    ensures SysInv(c, QueueNext(c, s))
  {
    hide RecvInv, ResultsHonest, WaiterInv;
    var todo, sent := s.snd.phase.todo, s.snd.sent;
    if todo != [] {
      assert IsDataFrame(c, sent, DataOf(c, sent[|sent| - 1], todo[0]), |sent|, todo[0]);
    }
  }

  /** When every fragment is acknowledged, every fragment is stored, delivered or lost. */
  lemma AllAckedConfirmed(c: Config, sent: seq<Message>, rcv: Receiver, w: Waiter)
    requires Numbered(sent) && WaiterInv(c, sent, rcv, w) && w.remaining == 0
    ensures Confirmed(sent, rcv, |sent|)
  {
    var m := sent[|sent| - 1];
    AckTracking.DoneMeansAllAcked(w.acked);
    assert Secured(sent, rcv, m.seqNo, |m.Chunks()| - 1);
  }

  /** A message whose fragments are all stored, delivered or lost was delivered, unless one of them
      is lost: a complete entry cannot stay open. */
  lemma ConfirmedDelivered(c: Config, sent: seq<Message>, rcv: Receiver, q: U32)
    requires Numbered(sent) && RecvInv(c, sent, rcv) && Confirmed(sent, rcv, q)
    requires |sent[q - 1].data| < 0x1_0000_0000
    requires forall i: nat :: i < |sent[q - 1].Chunks()| ==> (q, i) !in rcv.lost
    ensures InLog(rcv.log, q)
  {
    hide LostInv, LogHonest, RecentRemembered, Spaced, AllLogged;
    var n := |sent[q - 1].Chunks()|;
    if !InLog(rcv.log, q) {
      assert Secured(sent, rcv, q, 0);
      var e := rcv.re.inbound[q];
      assert EntryHonest(c, sent, e, q);
      forall i | 0 <= i < n ensures e.frags[i].Some? {
        assert Secured(sent, rcv, q, i);
      }
      CountMissingZero(e.frags);
      assert false;
    }
  }

  lemma FinishedKeeps(c: Config, s: System, r: Outcome)
    requires SysInv(c, s) && !s.snd.phase.Idle?
    requires r == Sent ==> Confirmed(s.snd.sent, s.rcv, |s.snd.sent|)
    ensures SysInv(c, s.(snd := Finished(s.snd, r)))
  {
    hide WaiterInv, RecvInv, WireInv, Confirmed;
  }

  /** A retransmission queues exactly the fragments not yet acknowledged, ascending. */
  lemma {:induction false} UnackedExact(acked: seq<bool>, from: nat)
    requires from <= |acked|
    ensures forall i :: i in Unacked(acked, from) <==> from <= i < |acked| && !acked[i]
    ensures forall j, k :: 0 <= j < k < |Unacked(acked, from)| ==> Unacked(acked, from)[j] < Unacked(acked, from)[k]
    decreases |acked| - from
  {
    if from < |acked| {
      UnackedExact(acked, from + 1);
      var rest := Unacked(acked, from + 1);
      assert forall k :: 0 <= k < |rest| ==> rest[k] in rest;
    }
  }

  lemma UnackedEmpty(w: Waiter)
    requires AckTracking.Consistent(w)
    ensures Unacked(w.acked, 0) == [] <==> w.remaining == 0
  {
    UnackedExact(w.acked, 0);
    AckTracking.DoneMeansAllAcked(w.acked);
    if Unacked(w.acked, 0) != [] {
      var i := Unacked(w.acked, 0)[0];
      assert i in Unacked(w.acked, 0);
    }
    assert forall i :: 0 <= i < |w.acked| && !w.acked[i] ==> i in Unacked(w.acked, 0);
  }

  lemma RequeueKeeps(c: Config, s: System)
    requires SysInv(c, s) && s.snd.phase.Awaiting? && s.snd.waiter.Some?
    ensures SysInv(c, s.(snd := s.snd.(phase := Queueing(s.snd.phase.attempt + 1, Unacked(s.snd.waiter.value.acked, 0)))))
  {
    var pending := Unacked(s.snd.waiter.value.acked, 0);
    UnackedExact(s.snd.waiter.value.acked, 0);
    assert forall k :: 0 <= k < |pending| ==> pending[k] in pending;
  }

  lemma TimeoutKeeps(c: Config, s: System)
    requires SysInv(c, s) && s.snd.phase.Awaiting? && s.snd.waiter.Some?
    ensures SysInv(c, s.(snd := TimedOut(c, s.snd)))
  {
    var w := s.snd.waiter.value;
    UnackedEmpty(w);
    if w.remaining == 0 {
      AllAckedConfirmed(c, s.snd.sent, s.rcv, w);
      FinishedKeeps(c, s, Sent);
    } else if s.snd.phase.attempt + 1 < c.maxAttempts {
      RequeueKeeps(c, s);
    } else {
      FinishedKeeps(c, s, AckTimeout);
    }
  }

  // ------------------------------------------------------------- wire decoding

  lemma DataOfDecodes(c: Config, m: Message, i: nat)
    requires i < |m.Chunks()|
    ensures Incoming(c, DataOf(c, m, i)) == Some(m.Frag(c.sum, i))
    ensures IncomingAck(c, DataOf(c, m, i)) == None
  {
    DataRoundTrip(c.sum, c.role, c.binding, m.seqNo, c.sum(m.data), |m.data|, i, |m.Chunks()|, m.Chunks()[i]);
  }

  lemma AckOfDecodes(c: Config, seqNo: U32, crc: U32, idx: U16)
    ensures IncomingAck(c, AckOf(c, seqNo, crc, idx)) == Some((seqNo, crc, idx))
    ensures Incoming(c, AckOf(c, seqNo, crc, idx)) == None
  {
    AckRoundTrip(c.remoteRole, c.binding, seqNo, crc, idx);
  }

  lemma ResolveKeeps(c: Config, s: System, q: U32, crc: U32, i: U16)
    requires SysInv(c, s) && Secured(s.snd.sent, s.rcv, q, i) && crc == c.sum(s.snd.sent[q - 1].data)
    ensures SysInv(c, s.(snd := Resolve(s.snd, (q, crc, i))))
  {
    hide RecvInv, WireInv, ResultsHonest, Secured;
    if s.snd.waiter.Some? && s.snd.sent[|s.snd.sent| - 1].seqNo == q {
      var w := s.snd.waiter.value;
      AckTracking.MarkedKeepsConsistent(w, crc, i);
      forall j | 0 <= j < |w.acked| && AckTracking.Marked(w, w.crc, i).acked[j]
        ensures Secured(s.snd.sent, s.rcv, q, j)
      {
      }
    }
  }

  /** An acknowledgement the sender acts on is well founded. */
  lemma AckWellFounded(c: Config, sent: seq<Message>, rcv: Receiver, wire: set<seq<Byte>>, b: seq<Byte>)
    requires WireInv(c, sent, rcv, wire) && b in wire && IncomingAck(c, b).Some?
    ensures var (q, crc, i) := IncomingAck(c, b).value;
            Secured(sent, rcv, q, i) && crc == c.sum(sent[q - 1].data)
  {
    hide Incoming, IncomingAck, DataOf, AckOf;
    assert Accounted(c, sent, rcv, b);
    if q, i :| IsDataFrame(c, sent, b, q, i) {
      DataOfDecodes(c, sent[q - 1], i);
    } else {
      var q, i :| IsAckFrame(c, sent, rcv, b, q, i);
      AckOfDecodes(c, q, c.sum(sent[q - 1].data), i);
    }
  }

  /** A fragment the receiver acts on is one the sender made. */
  lemma FragmentWellFounded(c: Config, sent: seq<Message>, rcv: Receiver, wire: set<seq<Byte>>, b: seq<Byte>)
    returns (q: U32, i: nat)
    requires WireInv(c, sent, rcv, wire) && b in wire
    requires Incoming(c, b).Some? && Incoming(c, b).value.Valid(c.sum)
    ensures KnownSeq(sent, q) && i < |sent[q - 1].Chunks()| && Incoming(c, b).value == sent[q - 1].Frag(c.sum, i)
  {
    hide Incoming, IncomingAck, DataOf, AckOf;
    assert Accounted(c, sent, rcv, b);
    if k, j :| IsDataFrame(c, sent, b, k, j) {
      q, i := k, j;
      DataOfDecodes(c, sent[q - 1], i);
    } else {
      var k, j :| IsAckFrame(c, sent, rcv, b, k, j);
      AckOfDecodes(c, k, c.sum(sent[k - 1].data), j);
      assert false;
    }
  }

  // ---------------------------------------------------------- receiver events

  /** A push of a true fragment of a message whose lengths fit the wire fields. */
  lemma PushHonest(sum: Checksum, st: State, m: Message, i: nat)
    requires Inv(st) && Tracks(sum, st, m) && m.Fits() && i < |m.Chunks()|
    ensures var (st', r) := Push(sum, st, m.Frag(sum, i));
            && Tracks(sum, st', m)
            && (r.Delivered? ==> r.data == m.data)
            && (!r.Delivered? ==> GotIn(st, m.seqNo) <= GotIn(st', m.seqNo))
            && (r.Partial? ==> i in GotIn(st', m.seqNo))
  {
    SentFragmentValid(sum, m, i);
    if m.InLimits() && !st.AlreadyDelivered(m.seqNo, sum(m.data)) {
      PushOwn(sum, st, m, i);
    }
  }

  lemma TracksHonest(c: Config, sent: seq<Message>, rcv: Receiver, q: U32)
    requires Numbered(sent) && EntriesHonest(c, sent, rcv.re.inbound) && KnownSeq(sent, q) && sent[q - 1].Fits()
    ensures Tracks(c.sum, rcv.re, sent[q - 1])
  {
    if q in rcv.re.inbound {
      assert EntryHonest(c, sent, rcv.re.inbound[q], q);
    }
  }

  lemma OwnEntryHonest(c: Config, sent: seq<Message>, re: State, q: U32, i: nat)
    requires KnownSeq(sent, q) && i < |sent[q - 1].Chunks()| && sent[q - 1].seqNo == q
    requires Inv(re) && (sent[q - 1].Fits() ==> Tracks(c.sum, re, sent[q - 1]))
    ensures var re' := Push(c.sum, re, sent[q - 1].Frag(c.sum, i)).0;
            q in re'.inbound ==> EntryHonest(c, sent, re'.inbound[q], q)
  {
    hide Push;
    if sent[q - 1].Fits() {
      PushHonest(c.sum, re, sent[q - 1], i);
    }
  }

  /** After a push, entries of every message are still honest. */
  lemma ReceiveEntries(c: Config, sent: seq<Message>, re: State, f: Fragment)
    requires EntriesHonest(c, sent, re.inbound)
    requires var re' := Push(c.sum, re, f).0;
             f.seqNo in re'.inbound ==> EntryHonest(c, sent, re'.inbound[f.seqNo], f.seqNo)
    ensures EntriesHonest(c, sent, Push(c.sum, re, f).0.inbound)
  {
    hide Push;
    var re' := Push(c.sum, re, f).0;
    forall k | k in re'.inbound ensures EntryHonest(c, sent, re'.inbound[k], k) {
      if k != f.seqNo {
        PushFrame(c.sum, re, f, k);
        assert EntryHonest(c, sent, re.inbound[k], k);
      }
    }
  }

  lemma OtherStaysStored(c: Config, rcv: Receiver, f: Fragment, k: U32, j: nat)
    requires k != f.seqNo && IsStored(rcv.re, k, j)
    ensures var rcv' := Receive(c, rcv, f);
            IsStored(rcv'.re, k, j) || InLog(rcv.log, k) || (k, j) in rcv'.lost
  {
    hide Push, VictimOf;
    PushFrame(c.sum, rcv.re, f, k);
    StoredMeansGot(rcv.re, k, j);
  }

  lemma StoredMeansGot(re: State, q: U32, i: nat)
    requires IsStored(re, q, i)
    ensures i in GotIn(re, q)
  {
  }

  lemma OwnStaysStored(c: Config, rcv: Receiver, m: Message, i: nat, j: nat)
    requires Inv(rcv.re) && Tracks(c.sum, rcv.re, m) && m.Fits() && i < |m.Chunks()|
    requires IsStored(rcv.re, m.seqNo, j)
    ensures var rcv' := Receive(c, rcv, m.Frag(c.sum, i)); IsStored(rcv'.re, m.seqNo, j) || InLog(rcv'.log, m.seqNo)
  {
    hide Push, VictimOf;
    PushHonest(c.sum, rcv.re, m, i);
    StoredMeansGot(rcv.re, m.seqNo, j);
    var rcv' := Receive(c, rcv, m.Frag(c.sum, i));
    if Push(c.sum, rcv.re, m.Frag(c.sum, i)).1.Delivered? {
      assert rcv'.log[|rcv.log|].seqNo == m.seqNo;
    } else {
      assert j in GotIn(rcv'.re, m.seqNo);
    }
  }

  /** A lost fragment stays lost until it is stored again. */
  lemma LostOrStored(c: Config, rcv: Receiver, f: Fragment, k: U32, j: nat)
    requires (k, j) in rcv.lost
    ensures var rcv' := Receive(c, rcv, f);
            (k, j) in rcv'.lost
            || (k == f.seqNo && j == f.idx
                && (Push(c.sum, rcv.re, f).1.Partial? || Push(c.sum, rcv.re, f).1.Delivered?))
  {
    hide Push, VictimOf;
  }

  lemma SecuredStep(c: Config, sent: seq<Message>, rcv: Receiver, q: U32, i: nat, k: U32, j: nat)
    requires Numbered(sent) && Inv(rcv.re) && EntriesHonest(c, sent, rcv.re.inbound)
    requires KnownSeq(sent, q) && i < |sent[q - 1].Chunks()|
    requires Secured(sent, rcv, k, j)
    ensures Secured(sent, Receive(c, rcv, sent[q - 1].Frag(c.sum, i)), k, j)
  {
    hide Push, VictimOf, Inv, EntriesHonest, IsStored, InLog, Receive;
    var f := sent[q - 1].Frag(c.sum, i);
    var rcv' := Receive(c, rcv, f);
    if sent[k - 1].Fits() {
      if InLog(rcv.log, k) {
        LogGrows(c, rcv, f);
        InLogKept(rcv.log, rcv'.log, k);
      } else if IsStored(rcv.re, k, j) {
        if k == q {
          TracksHonest(c, sent, rcv, q);
          OwnStaysStored(c, rcv, sent[q - 1], i, j);
        } else {
          OtherStaysStored(c, rcv, f, k, j);
        }
      } else {
        LostOrStored(c, rcv, f, k, j);
        if (k, j) !in rcv'.lost {
          TracksHonest(c, sent, rcv, q);
          StoredNow(c, rcv, sent[q - 1], i);
        }
      }
    }
  }

  lemma LogGrows(c: Config, rcv: Receiver, f: Fragment)
    ensures rcv.log <= Receive(c, rcv, f).log
  {
    hide Push, VictimOf;
  }

  lemma StoredNow(c: Config, rcv: Receiver, m: Message, i: nat)
    requires Inv(rcv.re) && Tracks(c.sum, rcv.re, m) && m.Fits() && i < |m.Chunks()|
    requires var r := Push(c.sum, rcv.re, m.Frag(c.sum, i)).1; r.Partial? || r.Delivered?
    ensures var rcv' := Receive(c, rcv, m.Frag(c.sum, i)); IsStored(rcv'.re, m.seqNo, ToU16(i)) || InLog(rcv'.log, m.seqNo)
  {
    hide Push, VictimOf, Inv, Tracks, IsStored, GotIn, InLog;
    var f := m.Frag(c.sum, i);
    assert f.seqNo == m.seqNo;
    if Push(c.sum, rcv.re, f).1.Delivered? {
      DeliveryLogged(c, rcv, f);
    } else {
      PushHonest(c.sum, rcv.re, m, i);
      GotMeansStored(Receive(c, rcv, f).re, m.seqNo, i);
    }
  }

  lemma ReceiveExtends(c: Config, sent: seq<Message>, rcv: Receiver, q: U32, i: nat)
    requires Numbered(sent) && Inv(rcv.re) && EntriesHonest(c, sent, rcv.re.inbound)
    requires KnownSeq(sent, q) && i < |sent[q - 1].Chunks()|
    ensures Extends(sent, rcv, sent, Receive(c, rcv, sent[q - 1].Frag(c.sum, i)))
  {
    hide Inv, EntriesHonest, Secured, Receive, Push, VictimOf;
    var rcv' := Receive(c, rcv, sent[q - 1].Frag(c.sum, i));
    LogGrows(c, rcv, sent[q - 1].Frag(c.sum, i));
    forall k, j | Secured(sent, rcv, k, j) ensures Secured(sent, rcv', k, j) {
      SecuredStep(c, sent, rcv, q, i, k, j);
    }
  }

  lemma AckedValid(sum: Checksum, st: State, f: Fragment)
    requires !Push(sum, st, f).1.Ignore?
    ensures f.idx < f.total
  {
  }

  lemma GotMeansStored(re: State, q: U32, i: nat)
    requires i in GotIn(re, q)
    ensures IsStored(re, q, i)
  {
  }

  lemma DuplicateLogged(c: Config, rcv: Receiver, f: Fragment)
    requires AllLogged(rcv.re.delivered, rcv.log) && AllLogged(rcv.re.previous, rcv.log)
    requires Push(c.sum, rcv.re, f).1.Duplicate?
    ensures InLog(rcv.log, f.seqNo)
  {
    hide Push;
    PushDuplicate(c.sum, rcv.re, f);
  }

  lemma DeliveryLogged(c: Config, rcv: Receiver, f: Fragment)
    requires Push(c.sum, rcv.re, f).1.Delivered?
    ensures InLog(Receive(c, rcv, f).log, f.seqNo)
  {
    hide Push, VictimOf;
    assert Receive(c, rcv, f).log[|rcv.log|].seqNo == f.seqNo;
  }

  lemma AckedSecure(c: Config, rcv: Receiver, m: Message, i: nat)
    requires Inv(rcv.re) && Tracks(c.sum, rcv.re, m) && m.Fits() && i < |m.Chunks()|
    requires AllLogged(rcv.re.delivered, rcv.log) && AllLogged(rcv.re.previous, rcv.log)
    requires !Push(c.sum, rcv.re, m.Frag(c.sum, i)).1.Ignore?
    ensures var rcv' := Receive(c, rcv, m.Frag(c.sum, i)); IsStored(rcv'.re, m.seqNo, ToU16(i)) || InLog(rcv'.log, m.seqNo)
  {
    hide Push, VictimOf, Inv, AllLogged, Tracks, IsStored, GotIn, InLog;
    var f := m.Frag(c.sum, i);
    var r := Push(c.sum, rcv.re, f).1;
    assert f.seqNo == m.seqNo;
    if r.Duplicate? {
      DuplicateLogged(c, rcv, f);
      LogGrows(c, rcv, f);
      InLogKept(rcv.log, Receive(c, rcv, f).log, m.seqNo);
    } else {
      StoredNow(c, rcv, m, i);
    }
  }

  /** Every fragment that is acknowledged is secured. */
  lemma ReceiveSecures(c: Config, sent: seq<Message>, rcv: Receiver, q: U32, i: nat)
    requires Numbered(sent) && Inv(rcv.re) && EntriesHonest(c, sent, rcv.re.inbound)
    requires AllLogged(rcv.re.delivered, rcv.log) && AllLogged(rcv.re.previous, rcv.log)
    requires KnownSeq(sent, q) && i < |sent[q - 1].Chunks()|
    requires !Push(c.sum, rcv.re, sent[q - 1].Frag(c.sum, i)).1.Ignore?
    ensures Secured(sent, Receive(c, rcv, sent[q - 1].Frag(c.sum, i)), q, ToU16(i))
  {
    hide Inv, EntriesHonest, AllLogged, IsStored, InLog, Push, Receive, ToU16, Message.Fits;
    AckedValid(c.sum, rcv.re, sent[q - 1].Frag(c.sum, i));
    if sent[q - 1].Fits() {
      TracksHonest(c, sent, rcv, q);
      AckedSecure(c, rcv, sent[q - 1], i);
    }
  }

  lemma PushDuplicate(sum: Checksum, st: State, f: Fragment)
    requires Push(sum, st, f).1.Duplicate?
    ensures st.AlreadyDelivered(f.seqNo, f.crc)
  {
    if f.Valid(sum) && !st.AlreadyDelivered(f.seqNo, f.crc) {
      FinishWindow(sum, Store(Upsert(st, f), f), f.seqNo);
    }
  }

  lemma DeliversOwnBytes(c: Config, rcv: Receiver, m: Message, i: nat)
    requires Inv(rcv.re) && Tracks(c.sum, rcv.re, m) && m.Fits() && i < |m.Chunks()|
    requires Push(c.sum, rcv.re, m.Frag(c.sum, i)).1.Delivered?
    ensures Push(c.sum, rcv.re, m.Frag(c.sum, i)).1.data == m.data
  {
    PushHonest(c.sum, rcv.re, m, i);
  }

  lemma LogExtended(c: Config, sent: seq<Message>, log: seq<Logged>, l: Logged)
    requires LogHonest(c, sent, log) && LogEntryHonest(c, sent, l)
    ensures LogHonest(c, sent, log + [l])
  {
  }

  lemma ReceiveLogHonest(c: Config, sent: seq<Message>, rcv: Receiver, q: U32, i: nat)
    requires Numbered(sent) && Inv(rcv.re) && LogHonest(c, sent, rcv.log)
    requires KnownSeq(sent, q) && i < |sent[q - 1].Chunks()|
    requires sent[q - 1].Fits() ==> Tracks(c.sum, rcv.re, sent[q - 1])
    ensures LogHonest(c, sent, Receive(c, rcv, sent[q - 1].Frag(c.sum, i)).log)
  {
    hide Inv, Tracks, LogHonest, Push, VictimOf;
    var m := sent[q - 1];
    var r := Push(c.sum, rcv.re, m.Frag(c.sum, i)).1;
    if r.Delivered? {
      if m.Fits() {
        DeliversOwnBytes(c, rcv, m, i);
      }
      LogExtended(c, sent, rcv.log, Logged(q, c.sum(m.data), r.data));
    }
  }

  lemma ReceiveAllLogged(c: Config, rcv: Receiver, f: Fragment)
    requires AllLogged(rcv.re.delivered, rcv.log) && AllLogged(rcv.re.previous, rcv.log)
    ensures var rcv' := Receive(c, rcv, f);
            AllLogged(rcv'.re.delivered, rcv'.log) && AllLogged(rcv'.re.previous, rcv'.log)
  {
    var rcv' := Receive(c, rcv, f);
    PushWindow(c.sum, rcv.re, f);
    if Push(c.sum, rcv.re, f).1.Delivered? {
      assert rcv'.log[|rcv.log|].seqNo == f.seqNo;
    }
    forall k | k in rcv'.re.delivered || k in rcv'.re.previous ensures InLog(rcv'.log, k) {
      if k in rcv.re.delivered || k in rcv.re.previous {
        InLogKept(rcv.log, rcv'.log, k);
      }
    }
  }

  /** The dedup window keeps equal sequence numbers more than `maxRecent` deliveries apart. */
  lemma WindowStep(rcv: Receiver, rcv': Receiver, l: Logged)
    requires rcv.base == rcv'.base <= |rcv.log| && RecentRemembered(rcv) && Spaced(rcv)
    requires forall j :: 0 <= j < |rcv.log| && rcv.log[j].seqNo == l.seqNo ==> rcv.log[j].crc == l.crc
    requires !rcv.re.AlreadyDelivered(l.seqNo, l.crc) && rcv'.log == rcv.log + [l]
    requires rcv'.re.delivered == Remember(rcv.re, l.seqNo, l.crc).delivered
    requires rcv'.re.previous == Remember(rcv.re, l.seqNo, l.crc).previous
    requires rcv'.re.maxRecent == rcv.re.maxRecent
    ensures RecentRemembered(rcv') && Spaced(rcv')
  {
    var n := |rcv.log|;
    forall j | rcv.base <= j < n && n - 1 - j < rcv.re.maxRecent
      ensures rcv.log[j].seqNo != l.seqNo
      ensures Remembers(rcv'.re, rcv.log[j].seqNo, rcv.log[j].crc, n - j)
    {
      assert Remembers(rcv.re, rcv.log[j].seqNo, rcv.log[j].crc, n - 1 - j);
      RememberKeeps(rcv.re, l.seqNo, l.crc, rcv.log[j].seqNo, rcv.log[j].crc, n - 1 - j);
    }
  }

  lemma WindowKept(rcv: Receiver, rcv': Receiver)
    requires RecentRemembered(rcv) && Spaced(rcv)
    requires rcv'.base == rcv.base && rcv'.log == rcv.log && rcv'.re.maxRecent == rcv.re.maxRecent
    requires rcv'.re.delivered == rcv.re.delivered && rcv'.re.previous == rcv.re.previous
    ensures RecentRemembered(rcv') && Spaced(rcv')
  {
  }

  lemma ReceiveWindow(c: Config, rcv: Receiver, f: Fragment)
    requires rcv.base <= |rcv.log| && RecentRemembered(rcv) && Spaced(rcv)
    requires forall j :: 0 <= j < |rcv.log| && rcv.log[j].seqNo == f.seqNo ==> rcv.log[j].crc == f.crc
    ensures RecentRemembered(Receive(c, rcv, f)) && Spaced(Receive(c, rcv, f))
  {
    PushWindow(c.sum, rcv.re, f);
    PushKeepsCaps(c.sum, rcv.re, f);
    var r := Push(c.sum, rcv.re, f).1;
    if r.Delivered? {
      WindowStep(rcv, Receive(c, rcv, f), Logged(f.seqNo, f.crc, r.data));
    } else {
      WindowKept(rcv, Receive(c, rcv, f));
    }
  }

  lemma LoggedCrc(c: Config, sent: seq<Message>, log: seq<Logged>, f: Fragment)
    requires LogHonest(c, sent, log) && KnownSeq(sent, f.seqNo) && f.crc == c.sum(sent[f.seqNo - 1].data)
    ensures forall j :: 0 <= j < |log| && log[j].seqNo == f.seqNo ==> log[j].crc == f.crc
  {
    forall j | 0 <= j < |log| && log[j].seqNo == f.seqNo ensures log[j].crc == f.crc {
      assert LogEntryHonest(c, sent, log[j]);
    }
  }

  lemma ReceiveKeepsTables(c: Config, sent: seq<Message>, rcv: Receiver, q: U32, i: nat)
    requires Numbered(sent) && Inv(rcv.re) && EntriesHonest(c, sent, rcv.re.inbound)
    requires KnownSeq(sent, q) && i < |sent[q - 1].Chunks()|
    ensures var rcv' := Receive(c, rcv, sent[q - 1].Frag(c.sum, i));
            Inv(rcv'.re) && EntriesHonest(c, sent, rcv'.re.inbound)
  {
    hide Push;
    PushKeepsInv(c.sum, rcv.re, sent[q - 1].Frag(c.sum, i));
    if sent[q - 1].Fits() {
      TracksHonest(c, sent, rcv, q);
    }
    OwnEntryHonest(c, sent, rcv.re, q, i);
    ReceiveEntries(c, sent, rcv.re, sent[q - 1].Frag(c.sum, i));
  }

  lemma ReceiveKeepsWindow(c: Config, sent: seq<Message>, rcv: Receiver, f: Fragment)
    requires LogHonest(c, sent, rcv.log) && KnownSeq(sent, f.seqNo) && f.crc == c.sum(sent[f.seqNo - 1].data)
    requires rcv.base <= |rcv.log| && RecentRemembered(rcv) && Spaced(rcv)
    ensures RecentRemembered(Receive(c, rcv, f)) && Spaced(Receive(c, rcv, f))
  {
    hide Receive;
    LoggedCrc(c, sent, rcv.log, f);
    ReceiveWindow(c, rcv, f);
  }

  /** A push of another fragment does not store fragment `j`, and delivers nothing while it misses. */
  lemma OwnLost(sum: Checksum, st: State, m: Message, i: nat, j: nat)
    requires Inv(st) && Tracks(sum, st, m) && m.Fits() && i < |m.Chunks()| && j < |m.Chunks()|
    requires j !in GotIn(st, m.seqNo)
    ensures var (st', r) := Push(sum, st, m.Frag(sum, i));
            if r.Partial? || r.Delivered? then j != i ==> j !in GotIn(st', m.seqNo) && r.Partial? else st' == st
  {
    hide Push, Inv, Tracks, GotIn;
    SentFragmentValid(sum, m, i);
    PushLeaves(sum, st, m.Frag(sum, i));
    if m.InLimits() && !st.AlreadyDelivered(m.seqNo, sum(m.data)) {
      PushOwn(sum, st, m, i);
      assert Complete(GotIn(st, m.seqNo) + {i}, m) ==> j in GotIn(st, m.seqNo) + {i};
    }
  }

  /** An invalid fragment, or one of a remembered message, changes nothing. */
  lemma PushLeaves(sum: Checksum, st: State, f: Fragment)
    ensures !f.Valid(sum) ==> Push(sum, st, f) == (st, Ignore)
    ensures f.Valid(sum) && st.AlreadyDelivered(f.seqNo, f.crc) ==> Push(sum, st, f) == (st, Duplicate)
  {
  }

  lemma LostStays(c: Config, sent: seq<Message>, rcv: Receiver, q: U32, i: nat, k: U32, j: nat)
    requires Numbered(sent) && Inv(rcv.re) && EntriesHonest(c, sent, rcv.re.inbound)
    requires KnownSeq(sent, q) && i < |sent[q - 1].Chunks()| && LostTruly(sent, rcv, k, j)
    requires (k, j) in Receive(c, rcv, sent[q - 1].Frag(c.sum, i)).lost
    ensures LostTruly(sent, Receive(c, rcv, sent[q - 1].Frag(c.sum, i)), k, j)
  {
    hide Push, VictimOf, Inv, EntriesHonest, GotIn, IsStored, InLog, Evicted, Tracks;
    var f := sent[q - 1].Frag(c.sum, i);
    var rcv' := Receive(c, rcv, f);
    if sent[k - 1].Fits() {
      if k == q {
        TracksHonest(c, sent, rcv, q);
        NotGot(rcv.re, q, j);
        OwnLost(c.sum, rcv.re, sent[q - 1], i, j);
        NotGot(rcv'.re, q, j);
      } else {
        OthersNotStored(c, rcv, f, k, j);
      }
      NotLoggedBy(c, rcv, f, k);
    }
  }

  lemma OthersNotStored(c: Config, rcv: Receiver, f: Fragment, k: U32, j: nat)
    requires k != f.seqNo && !IsStored(rcv.re, k, j)
    ensures !IsStored(Receive(c, rcv, f).re, k, j)
  {
    hide Push, VictimOf, Evicted;
    PushFrame(c.sum, rcv.re, f, k);
  }

  lemma NotGot(re: State, q: U32, j: nat)
    ensures j in GotIn(re, q) <==> IsStored(re, q, j)
  {
  }

  lemma NotLoggedBy(c: Config, rcv: Receiver, f: Fragment, k: U32)
    requires !InLog(rcv.log, k) && (k == f.seqNo ==> !Push(c.sum, rcv.re, f).1.Delivered?)
    ensures !InLog(Receive(c, rcv, f).log, k)
  {
    hide Push, VictimOf;
  }

  lemma EvictedLost(c: Config, sent: seq<Message>, rcv: Receiver, f: Fragment, k: U32, j: nat)
    requires EntriesHonest(c, sent, rcv.re.inbound) && (k, j) in Evicted(c, rcv, f)
    ensures LostTruly(sent, Receive(c, rcv, f), k, j)
  {
    VictimOther(c.sum, rcv.re, f);
    hide Push, VictimOf;
    assert EntryHonest(c, sent, rcv.re.inbound[k], k);
    PushFrame(c.sum, rcv.re, f, k);
    NotLoggedBy(c, rcv, f, k);
  }

  lemma VictimOther(sum: Checksum, st: State, f: Fragment)
    ensures VictimOf(sum, st, f) != Some(f.seqNo)
  {
  }

  lemma ReceiveKeepsLost(c: Config, sent: seq<Message>, rcv: Receiver, q: U32, i: nat)
    requires Numbered(sent) && Inv(rcv.re) && EntriesHonest(c, sent, rcv.re.inbound) && LostInv(sent, rcv)
    requires KnownSeq(sent, q) && i < |sent[q - 1].Chunks()|
    ensures LostInv(sent, Receive(c, rcv, sent[q - 1].Frag(c.sum, i)))
  {
    hide Inv, EntriesHonest, LostTruly, Push, VictimOf, Evicted;
    var f := sent[q - 1].Frag(c.sum, i);
    var rcv' := Receive(c, rcv, f);
    forall p | p in rcv'.lost ensures LostTruly(sent, rcv', p.0, p.1) {
      if p in rcv.lost {
        LostStays(c, sent, rcv, q, i, p.0, p.1);
      } else {
        EvictedLost(c, sent, rcv, f, p.0, p.1);
      }
    }
  }

  lemma ReceiveKeepsRecv(c: Config, sent: seq<Message>, rcv: Receiver, q: U32, i: nat)
    requires Numbered(sent) && RecvInv(c, sent, rcv) && KnownSeq(sent, q) && i < |sent[q - 1].Chunks()|
    ensures RecvInv(c, sent, Receive(c, rcv, sent[q - 1].Frag(c.sum, i)))
  {
    hide Inv, EntriesHonest, AllLogged, LogHonest, RecentRemembered, Spaced, LostInv, Push, VictimOf, Evicted;
    ReceiveKeepsTables(c, sent, rcv, q, i);
    ReceiveAllLogged(c, rcv, sent[q - 1].Frag(c.sum, i));
    if sent[q - 1].Fits() {
      TracksHonest(c, sent, rcv, q);
    }
    ReceiveLogHonest(c, sent, rcv, q, i);
    ReceiveKeepsWindow(c, sent, rcv, sent[q - 1].Frag(c.sum, i));
    ReceiveKeepsLost(c, sent, rcv, q, i);
  }

  lemma WaiterKept(c: Config, sent: seq<Message>, rcv: Receiver, rcv': Receiver, w: Waiter)
    requires Extends(sent, rcv, sent, rcv') && WaiterInv(c, sent, rcv, w)
    ensures WaiterInv(c, sent, rcv', w)
  {
  }

  lemma AckAccounted(c: Config, sent: seq<Message>, rcv: Receiver, q: U32, i: nat)
    requires Numbered(sent) && RecvInv(c, sent, rcv) && KnownSeq(sent, q) && i < |sent[q - 1].Chunks()|
    ensures var f := sent[q - 1].Frag(c.sum, i);
            WireInv(c, sent, Receive(c, rcv, f), AcksFor(c, rcv, f))
  {
    hide Inv, EntriesHonest, AllLogged, Secured, LogHonest, RecentRemembered, Spaced, Push, Receive;
    var f := sent[q - 1].Frag(c.sum, i);
    if !Push(c.sum, rcv.re, f).1.Ignore? {
      ReceiveSecures(c, sent, rcv, q, i);
      assert IsAckFrame(c, sent, Receive(c, rcv, f), AckOf(c, f.seqNo, f.crc, f.idx), q, ToU16(i));
    }
  }

  /** Moving the receiver from `rcv` to `rcv'` and adding acks keeps the system invariant. */
  lemma ReceiverStep(c: Config, s: System, rcv': Receiver, acks: set<seq<Byte>>)
    requires SysInv(c, s) && RecvInv(c, s.snd.sent, rcv') && Extends(s.snd.sent, s.rcv, s.snd.sent, rcv')
    requires WireInv(c, s.snd.sent, rcv', acks)
    ensures SysInv(c, s.(rcv := rcv', wire := s.wire + acks))
  {
    WireKept(c, s.snd.sent, s.rcv, s.snd.sent, rcv', s.wire);
    ResultsKept(s.snd.sent, s.rcv, s.snd.sent, rcv', s.snd.results);
    if s.snd.waiter.Some? {
      WaiterKept(c, s.snd.sent, s.rcv, rcv', s.snd.waiter.value);
    }
  }

  lemma ToReceiverKeeps(c: Config, s: System, b: seq<Byte>)
    requires SysInv(c, s) && b in s.wire && Incoming(c, b).Some?
    ensures var f := Incoming(c, b).value;
            SysInv(c, s.(rcv := Receive(c, s.rcv, f), wire := s.wire + AcksFor(c, s.rcv, f)))
  {
    var f := Incoming(c, b).value;
    if f.Valid(c.sum) {
      var q, i := FragmentWellFounded(c, s.snd.sent, s.rcv, s.wire, b);
      ReceiveKeepsRecv(c, s.snd.sent, s.rcv, q, i);
      ReceiveExtends(c, s.snd.sent, s.rcv, q, i);
      AckAccounted(c, s.snd.sent, s.rcv, q, i);
      ReceiverStep(c, s, Receive(c, s.rcv, f), AcksFor(c, s.rcv, f));
    } else {
      assert s.wire + {} == s.wire;
    }
  }

  lemma ToSenderKeeps(c: Config, s: System, b: seq<Byte>)
    requires SysInv(c, s) && b in s.wire && IncomingAck(c, b).Some?
    ensures SysInv(c, s.(snd := Resolve(s.snd, IncomingAck(c, b).value)))
  {
    hide PhaseInv, WaiterInv, ResultsHonest, RecvInv, WireInv, Numbered, Secured, Resolve, IncomingAck;
    var (q, crc, i) := IncomingAck(c, b).value;
    AckWellFounded(c, s.snd.sent, s.rcv, s.wire, b);
    ResolveKeeps(c, s, q, crc, i);
  }

  lemma ResetLost(c: Config, sent: seq<Message>, rcv: Receiver)
    requires EntriesHonest(c, sent, rcv.re.inbound) && LostInv(sent, rcv)
    ensures LostInv(sent, Cleared(rcv))
  {
    var rcv' := Cleared(rcv);
    forall p | p in rcv'.lost ensures LostTruly(sent, rcv', p.0, p.1) {
      if p in rcv.lost {
        assert LostTruly(sent, rcv, p.0, p.1);
      } else {
        assert EntryHonest(c, sent, rcv.re.inbound[p.0], p.0);
      }
    }
  }

  lemma ResetExtends(sent: seq<Message>, rcv: Receiver)
    ensures Extends(sent, rcv, sent, Cleared(rcv))
  {
    hide InLog;
    var rcv' := Cleared(rcv);
    forall k: U32, j: nat | Secured(sent, rcv, k, j) ensures Secured(sent, rcv', k, j) {
      if IsStored(rcv.re, k, j) && !InLog(rcv.log, k) {
        StoredMeansGot(rcv.re, k, j);
        assert (k, j) in DroppedWith(rcv, k);
      }
    }
  }

  lemma ResetRecv(c: Config, sent: seq<Message>, rcv: Receiver)
    requires RecvInv(c, sent, rcv)
    ensures RecvInv(c, sent, Cleared(rcv))
  {
    ResetLost(c, sent, rcv);
  }

  lemma NoFrames(c: Config, sent: seq<Message>, rcv: Receiver)
    ensures WireInv(c, sent, rcv, {})
  {
  }

  lemma ResetKeeps(c: Config, s: System)
    requires SysInv(c, s)
    ensures SysInv(c, s.(rcv := Cleared(s.rcv)))
  {
    hide RecvInv, Extends, Secured, Cleared, WireInv, WaiterInv, ResultsHonest, PhaseInv, Numbered;
    ResetRecv(c, s.snd.sent, s.rcv);
    ResetExtends(s.snd.sent, s.rcv);
    NoFrames(c, s.snd.sent, Cleared(s.rcv));
    assert s.wire + {} == s.wire;
    ReceiverStep(c, s, Cleared(s.rcv), {});
  }

  // ----------------------------------------------------------------- theorems

  lemma StartInv(c: Config, maxRecent: nat)
    requires maxRecent >= 1
    ensures SysInv(c, Start(maxRecent))
  {
  }

  lemma StepKeeps(c: Config, s: System, e: Event)
    requires SysInv(c, s) && Enabled(c, s, e) && |Step(c, s, e).snd.sent| < 0x1_0000_0000
    ensures SysInv(c, Step(c, s, e))
  {
    match e
    case StartSend(data) => BeginKeeps(c, s, data);
    case Enqueue => EnqueueKeeps(c, s);
    case AwaitDone =>
      AllAckedConfirmed(c, s.snd.sent, s.rcv, s.snd.waiter.value);
      FinishedKeeps(c, s, Sent);
    case AwaitTimeout => TimeoutKeeps(c, s);
    case CloseTransport => FinishedKeeps(c, s, TransportClosed);
    case ToReceiver(b) => if Incoming(c, b).Some? { ToReceiverKeeps(c, s, b); }
    case ToSender(b) => if IncomingAck(c, b).Some? { ToSenderKeeps(c, s, b); }
    case Inject(b) => assert Accounted(c, s.snd.sent, s.rcv, b);
    case ResetReceiver => ResetKeeps(c, s);
  }

  lemma SentGrows(c: Config, s: System, e: Event)
    requires Enabled(c, s, e)
    ensures |s.snd.sent| <= |Step(c, s, e).snd.sent|
    ensures Step(c, s, e).rcv.re.maxRecent == s.rcv.re.maxRecent
  {
    if e.ToReceiver? && Incoming(c, e.b).Some? {
      PushKeepsCaps(c.sum, s.rcv.re, Incoming(c, e.b).value);
    }
  }

  lemma {:induction false} RunSentGrows(c: Config, states: seq<System>, events: seq<Event>, k: nat)
    requires IsRun(c, states, events) && k <= |events|
    ensures |states[k].snd.sent| <= |states[|events|].snd.sent|
    decreases |events| - k
  {
    if k < |events| {
      SentGrows(c, states[k], events[k]);
      RunSentGrows(c, states, events, k + 1);
    }
  }

  lemma {:induction false} RunInv(c: Config, states: seq<System>, events: seq<Event>, k: nat)
    requires IsRun(c, states, events) && k <= |events| && |states[|events|].snd.sent| < 0x1_0000_0000
    ensures SysInv(c, states[k])
  {
    if k == 0 {
      var n: nat :| n >= 1 && states[0] == Start(n);
      StartInv(c, n);
    } else {
      RunInv(c, states, events, k - 1);
      RunSentGrows(c, states, events, k);
      StepKeeps(c, states[k - 1], events[k - 1]);
    }
  }

  /** `q` was handed to onData as exactly `data`. */
  ghost predicate DeliveredAs(log: seq<Logged>, q: U32, data: seq<Byte>) {
    exists j :: 0 <= j < |log| && log[j].seqNo == q && log[j].data == data
  }

  /** End-to-end delivery, exactly. In every run with fewer than 2^32 sends, whatever the network
      loses, repeats, reorders or adds: a message whose Send returned nil has been handed over with
      exactly its bytes if and only if no fragment of it is lost, that is, dropped from its open
      entry by an eviction or a Reset and not stored again. */
  lemma SendReturnsNilDelivered(c: Config, states: seq<System>, events: seq<Event>, k: nat)
    requires IsRun(c, states, events)
    requires var s := states[|events|];
             && |s.snd.sent| < 0x1_0000_0000
             && k < |s.snd.results| && k < |s.snd.sent| && s.snd.results[k] == Sent
             && |s.snd.sent[k].data| < 0x1_0000_0000
    ensures var s := states[|events|];
            var m := s.snd.sent[k];
            DeliveredAs(s.rcv.log, m.seqNo, m.data) <==>
              forall i: nat :: i < |m.Chunks()| ==> (m.seqNo, i) !in s.rcv.lost
  {
    var s := states[|events|];
    RunInv(c, states, events, |events|);
    DeliveredIffNotLost(c, s, k);
  }

  lemma DeliveredIffNotLost(c: Config, s: System, k: nat)
    requires Numbered(s.snd.sent) && RecvInv(c, s.snd.sent, s.rcv)
    requires ResultsHonest(s.snd.sent, s.snd.results, s.rcv)
    requires k < |s.snd.results| && s.snd.results[k] == Sent && |s.snd.sent[k].data| < 0x1_0000_0000
    ensures var m := s.snd.sent[k];
            DeliveredAs(s.rcv.log, m.seqNo, m.data) <==>
              forall i: nat :: i < |m.Chunks()| ==> (m.seqNo, i) !in s.rcv.lost
  {
    hide Inv, EntriesHonest, AllLogged, RecentRemembered, Spaced, Secured;
    var m := s.snd.sent[k];
    assert Confirmed(s.snd.sent, s.rcv, k + 1);
    if i: nat :| i < |m.Chunks()| && (m.seqNo, i) in s.rcv.lost {
      assert LostTruly(s.snd.sent, s.rcv, m.seqNo, i);
    } else {
      ConfirmedDelivered(c, s.snd.sent, s.rcv, k + 1);
      var j :| 0 <= j < |s.rcv.log| && s.rcv.log[j].seqNo == m.seqNo;
      assert LogEntryHonest(c, s.snd.sent, s.rcv.log[j]);
    }
  }

  /** Nothing else is ever handed over, and nothing twice within the dedup window: every log
      entry that fits the wire fields is a sent message with its own bytes, and since the last
      Reset two deliveries of one message are more than `maxRecent` deliveries apart. */
  lemma OnlySentOnceInWindow(c: Config, states: seq<System>, events: seq<Event>)
    requires IsRun(c, states, events) && |states[|events|].snd.sent| < 0x1_0000_0000
    ensures var s := states[|events|];
            && (forall j :: 0 <= j < |s.rcv.log| ==> LogEntryHonest(c, s.snd.sent, s.rcv.log[j]))
            && Spaced(s.rcv)
  {
    RunInv(c, states, events, |events|);
  }

  /** A Send in progress always has a next step of its own. */
  lemma SendNeverStuck(c: Config, states: seq<System>, events: seq<Event>)
    requires IsRun(c, states, events) && |states[|events|].snd.sent| < 0x1_0000_0000
    requires !states[|events|].snd.phase.Idle?
    ensures Enabled(c, states[|events|], Enqueue) || Enabled(c, states[|events|], AwaitTimeout)
  {
    hide WaiterInv, ResultsHonest, RecvInv, WireInv, Numbered;
    RunInv(c, states, events, |events|);
  }
}
