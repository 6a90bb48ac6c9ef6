/** The reorder buffer as it runs: packet objects move between the pending map, the delivery in
    progress and a free list, and are reused. */
module ReorderImpl {
  import opened Bytes
  import opened ReorderBuffer
  import FrameAssembly

  type Packet = FrameAssembly.Packet

  const MAX_RETAINED_CAP := 2 * 1024

  /** An RTP packet object; `cap` is the capacity of its payload storage. */
  class RtpPacket {
    var seqNo: U16
    var marker: bool
    var payload: seq<Byte>
    var cap: nat

    constructor ()
      ensures payload == [] && cap == 0
    {
      seqNo, marker, payload, cap := 0, false, [], 0;
    }

    ghost function View(): Packet
      reads this
    {
      FrameAssembly.Packet(seqNo, marker, payload)
    }
  }

  /** The packets behind the keys of a pending map. */
  ghost function Contents(pkts: map<U16, RtpPacket>): map<U16, Packet>
    reads pkts.Values
  {
    map k | k in pkts :: pkts[k].View()
  }

  /** No object is both pending and free, and none occurs twice. */
  ghost predicate Disjoint(pkts: map<U16, RtpPacket>, free: seq<RtpPacket>) {
    && (forall j, k :: j in pkts && k in pkts && j != k ==> pkts[j] != pkts[k])
    && (forall i, j :: 0 <= i < j < |free| ==> free[i] != free[j])
    && (forall k, i :: k in pkts && 0 <= i < |free| ==> pkts[k] != free[i])
  }

  class Reorderer {
    var pkts: map<U16, RtpPacket>
    var free: seq<RtpPacket>
    var nextSeq: U16
    var started: bool
    ghost var made: nat

    ghost function View(): Buffer<Packet>
      reads this, pkts.Values
    {
      Buffer(Contents(pkts), nextSeq, started)
    }

    /** Each packet object ever made is pending or free, in exactly one place, and at most 257
        were ever made. */
    ghost predicate Valid()
      reads this, pkts.Values
    {
      && Disjoint(pkts, free)
      && made == |pkts| + |free| <= REORDER_WINDOW + 1
      && Inv(View())
    }

    constructor ()
      ensures Valid() && View() == Empty() && made == 0
    {
      pkts, free, nextSeq, started := map[], [], 0, false;
      made := 0;
    }

    method Recycle(p: RtpPacket)
      modifies this`free, p
      ensures free == old(free) + [p]
      ensures p.View() == FrameAssembly.Packet(0, false, [])
      ensures p.cap == if old(p.cap) > MAX_RETAINED_CAP then 0 else old(p.cap)
    {
      p.seqNo, p.marker := 0, false;
      p.payload := [];
      if p.cap > MAX_RETAINED_CAP {
        p.cap := 0;
      }
      free := free + [p];
    }

    method Clone(pkt: Packet) returns (c: RtpPacket)
      modifies this`free, this`made, if free == [] then {} else {free[|free| - 1]}
      ensures c.View() == pkt
      ensures old(free) == [] ==> fresh(c) && free == [] && made == old(made) + 1
      ensures old(free) != [] ==>
                var last := |old(free)| - 1;
                c == old(free)[last] && free == old(free)[..last] && made == old(made)
    {
      var last := |free| - 1;
      if last >= 0 {
        c := free[last];
        free := free[..last];
      } else {
        c := new RtpPacket();
        made := made + 1;
      }
      c.seqNo, c.marker := pkt.seqNo, pkt.marker;
      if c.cap < |pkt.payload| {
        c.cap := |pkt.payload|;
      }
      c.payload := pkt.payload;
    }

    /** Stores a copy of `pkt` in the object that holds its number already. */
    method Replace(pkt: Packet)
      requires pkt.seqNo in pkts && Disjoint(pkts, free)
      modifies this`pkts, this`free, this`made, pkts[pkt.seqNo]
      ensures pkts == old(pkts) && free == old(free) && made == old(made)
      ensures Contents(pkts) == old(Contents(pkts))[pkt.seqNo := pkt]
    {
      var o := pkts[pkt.seqNo];
      Recycle(o);
      var c := Clone(pkt);
      assert c == o;
      pkts := pkts[pkt.seqNo := c];
    }

    /** Stores a copy of `pkt` in a free object, or in a new one when none is free. */
    method Add(pkt: Packet) returns (ghost c: RtpPacket)
      requires pkt.seqNo !in pkts && Disjoint(pkts, free)
      modifies this`pkts, this`free, this`made, if free == [] then {} else {free[|free| - 1]}
      ensures pkts == old(pkts)[pkt.seqNo := c]
      ensures if old(free) == [] then fresh(c) && free == [] && made == old(made) + 1
              else c == old(free)[|old(free)| - 1] && free == old(free)[..|old(free)| - 1] && made == old(made)
      ensures Contents(pkts) == old(Contents(pkts))[pkt.seqNo := pkt]
    {
      var o := Clone(pkt);
      c := o;
      assert forall k :: k in pkts ==> pkts[k] != o;
      assert Contents(pkts) == old(Contents(pkts));
      pkts := pkts[pkt.seqNo := o];
    }

    /** Makes room for and stores a copy of `pkt`. */
    method Insert(pkt: Packet)
      requires Disjoint(pkts, free) && made == |pkts| + |free| <= REORDER_WINDOW + 1 && |pkts| <= REORDER_WINDOW
      modifies this`pkts, this`free, this`made, pkts.Values, free
      ensures Disjoint(pkts, free) && made == |pkts| + |free| <= REORDER_WINDOW + 1
      ensures Contents(pkts) == old(Contents(pkts))[pkt.seqNo := pkt]
      ensures forall k :: k in pkts ==> fresh(pkts[k]) || pkts[k] in old(pkts.Values) || pkts[k] in old(free)
      ensures free <= old(free)
    {
      hide Disjoint, Contents;
      if pkt.seqNo in pkts {
        Replace(pkt);
      } else {
        ghost var c := AddNew(pkt);
      }
    }

    /** A new number takes a free object, and a new object only when none is free. */
    method AddNew(pkt: Packet) returns (ghost c: RtpPacket)
      requires pkt.seqNo !in pkts && Disjoint(pkts, free)
      requires made == |pkts| + |free| <= REORDER_WINDOW + 1 && |pkts| <= REORDER_WINDOW
      modifies this`pkts, this`free, this`made, free
      ensures Disjoint(pkts, free) && made == |pkts| + |free| <= REORDER_WINDOW + 1
      ensures Contents(pkts) == old(Contents(pkts))[pkt.seqNo := pkt]
      ensures pkts == old(pkts)[pkt.seqNo := c] && (fresh(c) || c in old(free)) && free <= old(free)
    {
      hide Contents;
      c := Add(pkt);
      DisjointAdd(old(pkts), old(free), pkt.seqNo, c, free);
      hide Disjoint;
      assert pkts.Keys == old(pkts).Keys + {pkt.seqNo};
    }

    /** One round of the drain loop: the head leaves the map, is delivered while it is neither
        pending nor free, and is recycled. */
    method TakeHead() returns (p: Packet)
      requires nextSeq in pkts && Disjoint(pkts, free)
      modifies this`pkts, this`free, this`nextSeq, pkts[nextSeq]
      ensures p == old(pkts[nextSeq].View()) && nextSeq == Succ16(old(nextSeq))
      ensures pkts == old(pkts) - {old(nextSeq)} && free == old(free) + [old(pkts[nextSeq])]
      ensures Contents(pkts) == old(Contents(pkts)) - {old(nextSeq)}
      ensures Disjoint(pkts, free)
    {
      var pkt := pkts[nextSeq];
      pkts := pkts - {nextSeq};
      nextSeq := Succ16(nextSeq);
      assert (forall k :: k in pkts ==> pkts[k] != pkt) && pkt !in free;
      p := FrameAssembly.Packet(pkt.seqNo, pkt.marker, pkt.payload);
      Recycle(pkt);
    }

    method DrainAll() returns (delivered: seq<Packet>)
      requires Disjoint(pkts, free)
      modifies this`pkts, this`free, this`nextSeq, pkts.Values
      ensures Disjoint(pkts, free) && |pkts| + |free| == old(|pkts| + |free|)
      ensures (View(), delivered) == Drain(old(View()))
    {
      delivered := [];
      while nextSeq in pkts
        invariant Disjoint(pkts, free) && |pkts| + |free| == old(|pkts| + |free|)
        invariant forall k :: k in pkts ==> k in old(pkts) && pkts[k] == old(pkts)[k]
        invariant Drain(View()).0 == Drain(old(View())).0
        invariant delivered + Drain(View()).1 == Drain(old(View())).1
        decreases |pkts|
      {
        ghost var was, out := View(), delivered;
        assert (pkts - {nextSeq}).Keys == pkts.Keys - {nextSeq};
        var p := TakeHead();
        delivered := delivered + [p];
        DrainHead(was, View(), p, out);
      }
      assert View().next !in View().pkts && delivered + [] == delivered;
    }

    /** Gives up a hole that a full window waits behind, then drains. */
    method Settle() returns (delivered: seq<Packet>)
      requires Disjoint(pkts, free) && InHalf(View())
      modifies this`pkts, this`free, this`nextSeq, pkts.Values
      ensures Disjoint(pkts, free) && |pkts| + |free| == old(|pkts| + |free|)
      ensures (View(), delivered) == Drain(Skip(old(View())))
    {
      SameSize();
      if |pkts| > REORDER_WINDOW {
        ghost var b := View();
        var keyed := Buffer(pkts, nextSeq, started);
        KeysDecide(b, keyed);
        nextSeq := SkipToOldest(keyed);
        KeysDecideOldest(b, keyed, nextSeq);
        OldestSame(b, nextSeq);
        assert View() == Skip(b);
      }
      delivered := DrainAll();
    }

    method Push(pkt: Packet) returns (delivered: seq<Packet>)
      requires Valid()
      modifies this, pkts.Values, free
      ensures Valid() && started
      ensures (View(), delivered) == ReorderBuffer.Push(old(View()), pkt.seqNo, pkt)
    {
      hide Disjoint;
      PushKeepsInv(View(), pkt.seqNo, pkt);
      SameSize();
      if !started {
        started := true;
        nextSeq := pkt.seqNo;
      }
      if SeqLess(pkt.seqNo, nextSeq) {
        return [];
      }
      AcceptedAhead(View(), pkt.seqNo);
      Insert(pkt);
      delivered := Settle();
    }

    lemma SameSize()
      ensures |Contents(pkts)| == |pkts|
    {
      assert Contents(pkts).Keys == pkts.Keys;
    }
  }

  lemma KeysDecide<P, Q>(b: Buffer<P>, c: Buffer<Q>)
    requires b.pkts.Keys == c.pkts.Keys && b.next == c.next && InHalf(b)
    ensures InHalf(c)
  {
    forall s | s in c.pkts ensures Ahead(c, s) < HALF {
      assert s in b.pkts;
    }
  }

  lemma KeysDecideOldest<P, Q>(b: Buffer<P>, c: Buffer<Q>, s: U16)
    requires b.pkts.Keys == c.pkts.Keys && b.next == c.next && IsOldest(c, s)
    ensures IsOldest(b, s)
  {
    forall t | t in b.pkts ensures Ahead(b, s) <= Ahead(b, t) {
      assert t in c.pkts;
    }
  }

  lemma DrainHead(b: Buffer<Packet>, b': Buffer<Packet>, p: Packet, out: seq<Packet>)
    requires b.next in b.pkts && p == b.pkts[b.next]
    requires b' == Buffer(b.pkts - {b.next}, Succ16(b.next), b.started)
    ensures Drain(b).0 == Drain(b').0 && out + Drain(b).1 == (out + [p]) + Drain(b').1
  {
  }

  /** Whichever oldest key a skip picks, it is the same one. */
  lemma OldestSame(b: Buffer<Packet>, s: U16)
    requires InHalf(b) && |b.pkts| > REORDER_WINDOW && IsOldest(b, s)
    ensures Skip(b).next == s
  {
    SeqLessIsOrder(b.next, s, Skip(b).next);
  }

  lemma DisjointAdd(pkts: map<U16, RtpPacket>, free: seq<RtpPacket>, s: U16, c: RtpPacket, free': seq<RtpPacket>)
    requires Disjoint(pkts, free) && s !in pkts
    requires if free == [] then free' == [] && forall k :: k in pkts ==> pkts[k] != c
             else c == free[|free| - 1] && free' == free[..|free| - 1]
    ensures Disjoint(pkts[s := c], free')
  {
  }
}
