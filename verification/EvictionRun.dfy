/** A run in which Send returns nil for a message that the receiver never hands over: the loss that
    the end-to-end theorem speaks of does happen. */
module EvictionRun {
  import opened Bytes
  import opened FrameCodec
  import opened Reassembly
  import opened ReassemblyProperties
  import opened Delivery
  import opened DeliveryProofs
  import AckTracking

  ghost predicate Reachable(c: Config, s: System) {
    exists states: seq<System>, events: seq<Event> :: IsRun(c, states, events) && states[|events|] == s
  }

  lemma ReachStart(c: Config)
    ensures Reachable(c, Start(1))
  {
    var states, events: seq<Event> := [Start(1)], [];
    assert IsRun(c, states, events) && states[|events|] == Start(1);
  }

  lemma ReachStep(c: Config, s: System, e: Event)
    requires Reachable(c, s) && Enabled(c, s, e)
    ensures Reachable(c, Step(c, s, e))
  {
    hide Step, Enabled;
    var states: seq<System>, events: seq<Event> :| IsRun(c, states, events) && states[|events|] == s;
    var states', events' := states + [Step(c, s, e)], events + [e];
    assert IsRun(c, states', events') by {
      assert states'[0] == states[0];
      forall k | 0 <= k < |events'|
        ensures Enabled(c, states'[k], events'[k]) && states'[k + 1] == Step(c, states'[k], events'[k])
      {
        if k < |events| {
          assert states'[k] == states[k] && states'[k + 1] == states[k + 1] && events'[k] == events[k];
        }
      }
    }
    assert states'[|events'|] == Step(c, s, e);
  }

  /** Two bytes, split into two fragments. */
  ghost predicate TwoChunks(m: Message) {
    |m.data| == 2 && m.chunkSize == 1
  }

  lemma ChunksOfTwo(m: Message)
    requires TwoChunks(m)
    ensures |m.Chunks()| == 2 && m.InLimits() && m.Fits()
  {
    assert Split(m.data, 1) == [m.data[..1]] + Split(m.data[1..], 1);
    assert Split(m.data[1..], 1) == [m.data[1..]];
  }

  /** The system with the last message of `snd` fully queued. */
  ghost function AllQueued(c: Config, s: System, m: Message): System
    requires |m.Chunks()| == 2
  {
    s.(snd := s.snd.(phase := Awaiting(0)), wire := s.wire + {DataOf(c, m, 0)} + {DataOf(c, m, 1)})
  }

  lemma QueueTwo(c: Config, s: System, m: Message)
    requires Reachable(c, s) && |s.snd.sent| > 0 && m == s.snd.sent[|s.snd.sent| - 1] && |m.Chunks()| == 2
    requires s.snd.phase == Queueing(0, [0, 1])
    ensures Reachable(c, AllQueued(c, s, m))
  {
    hide Reachable, DataOf, Message.Chunks;
    ReachStep(c, s, Enqueue);
    var s1 := Step(c, s, Enqueue);
    assert [0, 1][1..] == [1];
    assert s1 == s.(snd := s.snd.(phase := Queueing(0, [1])), wire := s.wire + {DataOf(c, m, 0)});
    ReachStep(c, s1, Enqueue);
    var s2 := Step(c, s1, Enqueue);
    assert [1][1..] == [];
    assert s2 == s1.(snd := s.snd.(phase := Queueing(0, [])), wire := s1.wire + {DataOf(c, m, 1)});
    ReachStep(c, s2, Enqueue);
    assert Step(c, s2, Enqueue) == AllQueued(c, s, m);
  }

  /** A Send that has queued its two fragments once. */
  lemma SendTwo(c: Config, s: System, data: seq<Byte>) returns (m: Message)
    requires Reachable(c, s) && s.snd.phase.Idle? && c.chunkSize == 1 && c.maxAttempts == 1 && |data| == 2
    requires s.snd.seqCounter < 0xffff_ffff
    ensures m == Message(s.snd.seqCounter + 1, data, 1) && |m.Chunks()| == 2
    ensures var snd := s.snd.(seqCounter := m.seqNo, sent := s.snd.sent + [m], phase := Awaiting(0),
                              waiter := Some(AckTracking.Fresh(c.sum(data), 2)));
            Reachable(c, s.(snd := snd, wire := s.wire + {DataOf(c, m, 0)} + {DataOf(c, m, 1)}))
  {
    hide Reachable, DataOf;
    m := Message(s.snd.seqCounter + 1, data, 1);
    ChunksOfTwo(m);
    hide Message.Chunks;
    ReachStep(c, s, StartSend(data));
    var s1 := Step(c, s, StartSend(data));
    assert Indices(2) == [0, 1];
    assert s1 == s.(snd := s.snd.(seqCounter := m.seqNo, sent := s.snd.sent + [m], phase := Queueing(0, [0, 1]),
                                  waiter := Some(AckTracking.Fresh(c.sum(data), 2))));
    QueueTwo(c, s1, m);
  }

  /** A fragment arrives, is answered Partial and acknowledged. */
  lemma Arrive(c: Config, s: System, m: Message, i: nat)
    requires Reachable(c, s) && i < |m.Chunks()| && DataOf(c, m, i) in s.wire
    requires Push(c.sum, s.rcv.re, m.Frag(c.sum, i)).1 == Partial
    ensures Reachable(c, s.(rcv := Receive(c, s.rcv, m.Frag(c.sum, i)),
                            wire := s.wire + {AckOf(c, m.seqNo, c.sum(m.data), ToU16(i))}))
    ensures var rcv' := Receive(c, s.rcv, m.Frag(c.sum, i));
            rcv'.log == s.rcv.log && rcv'.re == Push(c.sum, s.rcv.re, m.Frag(c.sum, i)).0
  {
    hide Reachable, DataOf, AckOf, Incoming, IncomingAck, Push, Evicted, Message.Chunks;
    DataOfDecodes(c, m, i);
    ReachStep(c, s, ToReceiver(DataOf(c, m, i)));
  }

  /** An acknowledgement of the message being sent arrives. */
  lemma Acknowledge(c: Config, s: System, crc: U32, i: U16)
    requires Reachable(c, s) && s.snd.waiter.Some? && |s.snd.sent| > 0
    requires AckOf(c, s.snd.sent[|s.snd.sent| - 1].seqNo, crc, i) in s.wire
    ensures Reachable(c, s.(snd := s.snd.(waiter := Some(AckTracking.Marked(s.snd.waiter.value, crc, i)))))
  {
    hide Reachable, AckOf, Incoming, IncomingAck;
    var q := s.snd.sent[|s.snd.sent| - 1].seqNo;
    AckOfDecodes(c, q, crc, i);
    ReachStep(c, s, ToSender(AckOf(c, q, crc, i)));
  }

  lemma BothMarked(crc: U32)
    ensures AckTracking.Marked(AckTracking.Marked(AckTracking.Fresh(crc, 2), crc, 0), crc, 1).remaining == 0
  {
  }

  /** First a message that nobody acknowledges in time. */
  lemma FirstSend(c: Config) returns (s: System, b: Message)
    requires c.chunkSize == 1 && c.maxAttempts == 1
    ensures Reachable(c, s) && b == Message(1, [3, 4], 1) && |b.Chunks()| == 2
    ensures s.snd == Sender(1, [b], [AckTimeout], Idle, None) && s.rcv == Start(1).rcv
    ensures DataOf(c, b, 0) in s.wire
  {
    hide Reachable, DataOf;
    ReachStart(c);
    b := SendTwo(c, Start(1), [3, 4]);
    hide Message.Chunks;
    var w := AckTracking.Fresh(c.sum([3, 4]), 2);
    var s1 := Start(1).(snd := Sender(1, [b], [], Awaiting(0), Some(w)),
                        wire := Start(1).wire + {DataOf(c, b, 0)} + {DataOf(c, b, 1)});
    assert [] + [b] == [b];
    assert Reachable(c, s1);
    ReachStep(c, s1, AwaitTimeout);
    s := Step(c, s1, AwaitTimeout);
    UnackedExact(w.acked, 0);
    assert 0 in Unacked(w.acked, 0);
    assert [] + [AckTimeout] == [AckTimeout];
  }

  /** Then a second message: its first fragment, a late one of the first message, its second. */
  lemma SecondSend(c: Config) returns (s: System, b: Message, a: Message)
    requires c.chunkSize == 1 && c.maxAttempts == 1
    ensures Reachable(c, s) && a == Message(2, [1, 2], 1) && |a.Chunks()| == 2
    ensures b == Message(1, [3, 4], 1) && |b.Chunks()| == 2
    ensures s.snd == Sender(2, [b, a], [AckTimeout], Awaiting(0), Some(AckTracking.Fresh(c.sum(a.data), 2)))
    ensures s.rcv == Start(1).rcv
    ensures DataOf(c, b, 0) in s.wire && DataOf(c, a, 0) in s.wire && DataOf(c, a, 1) in s.wire
  {
    hide Reachable, DataOf;
    var s1;
    s1, b := FirstSend(c);
    a := SendTwo(c, s1, [1, 2]);
    hide Message.Chunks;
    assert [b] + [a] == [b, a];
    s := s1.(snd := Sender(2, [b, a], [AckTimeout], Awaiting(0), Some(AckTracking.Fresh(c.sum(a.data), 2))),
             wire := s1.wire + {DataOf(c, a, 0)} + {DataOf(c, a, 1)});
  }

  lemma ThreeArrivals(c: Config) returns (s: System, b: Message, a: Message)
    requires c.chunkSize == 1 && c.maxAttempts == 1
    ensures Reachable(c, s) && a == Message(2, [1, 2], 1)
    ensures s.snd == Sender(2, [b, a], [AckTimeout], Awaiting(0), Some(AckTracking.Fresh(c.sum(a.data), 2)))
    ensures s.rcv.log == [] && GotIn(s.rcv.re, 2) == {1}
    ensures AckOf(c, 2, c.sum(a.data), 0) in s.wire && AckOf(c, 2, c.sum(a.data), 1) in s.wire
  {
    hide Reachable, DataOf, AckOf, Push, Receive;
    var s0;
    s0, b, a := SecondSend(c);
    ChunksOfTwo(a);
    ChunksOfTwo(b);
    hide Message.Chunks;
    EvictionLosesAcknowledged(c.sum, a, b);
    Arrive(c, s0, a, 0);
    var s1 := s0.(rcv := Receive(c, s0.rcv, a.Frag(c.sum, 0)), wire := s0.wire + {AckOf(c, 2, c.sum(a.data), 0)});
    Arrive(c, s1, b, 0);
    var s2 := s1.(rcv := Receive(c, s1.rcv, b.Frag(c.sum, 0)), wire := s1.wire + {AckOf(c, 1, c.sum(b.data), 0)});
    Arrive(c, s2, a, 1);
    s := s2.(rcv := Receive(c, s2.rcv, a.Frag(c.sum, 1)), wire := s2.wire + {AckOf(c, 2, c.sum(a.data), 1)});
  }

  /** With room for one open message and one attempt per Send there is a run in which the Send of
      the second message returns nil although nothing was ever handed over. */
  lemma SentYetUndelivered(c: Config) returns (s: System)
    requires c.chunkSize == 1 && c.maxAttempts == 1
    ensures Reachable(c, s) && s.snd.results == [AckTimeout, Sent] && s.rcv.log == []
    ensures GotIn(s.rcv.re, 2) == {1} && |s.snd.sent| == 2 && s.snd.sent[1] == Message(2, [1, 2], 1)
  {
    hide Reachable, AckOf;
    var s0, b, a := ThreeArrivals(c);
    var crc := c.sum(a.data);
    var w := AckTracking.Fresh(crc, 2);
    Acknowledge(c, s0, crc, 0);
    var s1 := s0.(snd := s0.snd.(waiter := Some(AckTracking.Marked(w, crc, 0))));
    Acknowledge(c, s1, crc, 1);
    var s2 := s0.(snd := s0.snd.(waiter := Some(AckTracking.Marked(AckTracking.Marked(w, crc, 0), crc, 1))));
    BothMarked(crc);
    ReachStep(c, s2, AwaitDone);
    s := Step(c, s2, AwaitDone);
    assert [AckTimeout] + [Sent] == [AckTimeout, Sent];
  }
}
