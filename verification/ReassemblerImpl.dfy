/** The reassembler as the transports run it: an object updated in place by every Push. */
module ReassemblerImpl {
  import opened Bytes
  import opened Reassembly

  /** Joins the fragments held, never returning more than the announced length. */
  method Assemble(e: Entry) returns (out: seq<Byte>)
    ensures out == Assembled(e)
  {
    ghost var pieces := Pieces(e.frags);
    var size := 0;
    for i := 0 to |e.frags|
      invariant size == |Concat(pieces[..i])|
    {
      assert pieces[..i + 1] == pieces[..i] + [pieces[i]];
      ConcatSnoc(pieces[..i], pieces[i]);
      size := size + if e.frags[i].Some? then |e.frags[i].value| else 0;
    }
    assert pieces[..|e.frags|] == pieces;
    if size > e.totalLen {
      size := e.totalLen;
    }
    out := [];
    for i := 0 to |e.frags|
      invariant out == Concat(pieces[..i]) && |out| <= size
      invariant size == |Assembled(e)|
    {
      assert pieces[..i + 1] == pieces[..i] + [pieces[i]];
      ConcatSnoc(pieces[..i], pieces[i]);
      assert pieces == pieces[..i + 1] + pieces[i + 1..];
      ConcatAppend(pieces[..i + 1], pieces[i + 1..]);
      var frag := if e.frags[i].Some? then e.frags[i].value else [];
      if |out| + |frag| > size {
        return out + frag[..size - |out|];
      }
      out := out + frag;
    }
    assert pieces[..|e.frags|] == pieces;
  }

  class Reassembler {
    const sum: Checksum
    var inbound: map<U32, Entry>
    var delivered: map<U32, U32>
    var previous: map<U32, U32>
    const maxRecent: nat
    const maxPending: nat
    var addCounter: nat

    ghost function View(): State
      reads this
    {
      State(inbound, delivered, previous, maxRecent, maxPending, addCounter)
    }

    constructor (sum: Checksum, maxRecent: int)
      ensures Inv(View())
      ensures View() == State(map[], map[], map[],
                              if maxRecent <= 0 then DEFAULT_RECENT else maxRecent,
                              if maxRecent <= 0 then DEFAULT_RECENT else maxRecent, 0)
    {
      this.sum := sum;
      inbound, delivered, previous := map[], map[], map[];
      this.maxRecent := if maxRecent <= 0 then DEFAULT_RECENT else maxRecent;
      this.maxPending := if maxRecent <= 0 then DEFAULT_RECENT else maxRecent;
      addCounter := 0;
    }

    /** Drops all reassembly and dedup state. */
    method Reset()
      requires Inv(View())
      modifies this
      ensures Inv(View())
      ensures View() == old(View()).(inbound := map[], delivered := map[], previous := map[], addCounter := 0)
    {
      inbound, delivered, previous := map[], map[], map[];
      addCounter := 0;
    }

    /** Drops the oldest other entry when over the cap. The scan visits the entries in any order;
        ages are distinct, so the victim does not depend on it. */
    method EvictOldestIfFull(keep: U32)
      requires DistinctAges(inbound)
      modifies this
      ensures View() == Evict(old(View()), keep)
    {
      if maxPending <= 0 || |inbound| <= maxPending {
        return;
      }
      var rest := inbound.Keys;
      var found := false;
      var oldestSeq, oldestAdded := 0, 0;
      while rest != {}
        invariant rest <= inbound.Keys && View() == old(View())
        invariant !found ==> forall t :: t in inbound && t !in rest ==> t == keep
        invariant found ==> oldestSeq in inbound && oldestSeq != keep && oldestAdded == inbound[oldestSeq].added
        invariant found ==> forall t :: t in inbound && t !in rest && t != keep ==> oldestAdded <= inbound[t].added
        decreases rest
      {
        var s :| s in rest;
        rest := rest - {s};
        if s != keep && (!found || inbound[s].added < oldestAdded) {
          oldestSeq, oldestAdded, found := s, inbound[s].added, true;
        }
      }
      if found {
        assert oldestSeq in inbound.Keys - {keep};
        assert IsOldest(inbound, keep, oldestSeq);
        ghost var v := Victim(View(), keep).value;
        assert inbound[v].added == inbound[oldestSeq].added;
        inbound := inbound - {oldestSeq};
      }
    }

    method UpsertEntry(f: Fragment)
      requires Inv(View()) && f.total > 0
      modifies this
      ensures View() == Upsert(old(View()), f)
    {
      if f.seqNo in inbound && inbound[f.seqNo].Compatible(f) {
        return;
      }
      OpenedKeepsInv(View(), f);
      addCounter := addCounter + 1;
      inbound := inbound[f.seqNo := Entry(f.totalLen, f.crc, seq(f.total, _ => None), f.total, addCounter)];
      assert View() == Opened(old(View()), f);
      EvictOldestIfFull(f.seqNo);
    }

    method StoreChunk(f: Fragment)
      requires HasEntryFor(View(), f) && f.idx < f.total
      modifies this
      ensures View() == Store(old(View()), f)
    {
      var msg := inbound[f.seqNo];
      if msg.frags[f.idx].Some? {
        assert inbound[f.seqNo := msg] == inbound;
        return;
      }
      inbound := inbound[f.seqNo := msg.(frags := msg.frags[f.idx := Some(f.payload)], remain := msg.remain - 1)];
    }

    method DeliverMessage(seqNo: U32) returns (r: PushResult)
      requires seqNo in inbound
      modifies this
      ensures (View(), r) == Finish(sum, old(View()), seqNo)
    {
      var msg := inbound[seqNo];
      inbound := inbound - {seqNo};
      var data := Assemble(msg);
      if sum(data) != msg.crc {
        return Ignore;
      }
      if |delivered| >= maxRecent {
        previous := delivered;
        delivered := map[];
      }
      delivered := delivered[seqNo := msg.crc];
      return Delivered(data);
    }

    method PushFragment(f: Fragment) returns (r: PushResult)
      requires Inv(View())
      modifies this
      ensures Inv(View())
      ensures (View(), r) == Push(sum, old(View()), f)
    {
      PushKeepsInv(sum, View(), f);
      if !f.Valid(sum) {
        return Ignore;
      }
      var window := if f.seqNo in delivered then delivered else previous;
      if f.seqNo in window && window[f.seqNo] == f.crc {
        return Duplicate;
      }
      UpsertEntry(f);
      StoreChunk(f);
      if inbound[f.seqNo].remain > 0 {
        return Partial;
      }
      r := DeliverMessage(f.seqNo);
    }
  }
}
