/** The reorder buffer does not look at packet contents: replacing each packet by its image under a
    function changes what is held and handed on in the same way. */
module BufferMap {
  import opened Bytes
  import opened ReorderBuffer

  function MapBuffer<P, Q>(b: Buffer<P>, f: P -> Q): Buffer<Q> {
    Buffer(map k | k in b.pkts :: f(b.pkts[k]), b.next, b.started)
  }

  function MapSeq<P, Q>(s: seq<P>, f: P -> Q): seq<Q> {
    seq(|s|, i requires 0 <= i < |s| => f(s[i]))
  }

  lemma {:induction false} DrainMap<P, Q>(b: Buffer<P>, f: P -> Q)
    ensures Drain(MapBuffer(b, f)) == (MapBuffer(Drain(b).0, f), MapSeq(Drain(b).1, f))
    decreases |b.pkts|
  {
    if b.next in b.pkts {
      var b1 := Buffer(b.pkts - {b.next}, Succ16(b.next), b.started);
      assert b1.pkts.Keys == b.pkts.Keys - {b.next};
      DrainMap(b1, f);
      var m := MapBuffer(b, f);
      assert m.pkts - {m.next} == MapBuffer(b1, f).pkts;
      assert MapSeq([b.pkts[b.next]] + Drain(b1).1, f) == [f(b.pkts[b.next])] + MapSeq(Drain(b1).1, f);
    } else {
      assert MapSeq(Drain(b).1, f) == [];
    }
  }

  lemma SkipMap<P, Q>(b: Buffer<P>, f: P -> Q)
    ensures Skip(MapBuffer(b, f)) == MapBuffer(Skip(b), f)
  {
    var m := MapBuffer(b, f);
    assert m.pkts.Keys == b.pkts.Keys;
    if |b.pkts| > REORDER_WINDOW {
      var s, t := Skip(b).next, Skip(m).next;
      assert Ahead(b, s) <= Ahead(b, t) && Ahead(m, t) <= Ahead(m, s);
      Sub16Cases(s, b.next);
      Sub16Cases(t, b.next);
    }
  }

  lemma PushMap<P, Q>(b: Buffer<P>, f: P -> Q, s: U16, p: P)
    ensures Push(MapBuffer(b, f), s, f(p)) == (MapBuffer(Push(b, s, p).0, f), MapSeq(Push(b, s, p).1, f))
  {
    var b1 := Starting(b, s);
    assert Starting(MapBuffer(b, f), s) == MapBuffer(b1, f);
    if !SeqLess(s, b1.next) {
      var b2 := b1.(pkts := b1.pkts[s := p]);
      assert MapBuffer(b1, f).pkts[s := f(p)] == MapBuffer(b2, f).pkts;
      SkipMap(b2, f);
      DrainMap(Skip(b2), f);
    } else {
      assert MapSeq(Push(b, s, p).1, f) == [];
    }
  }

  lemma MapAppend<P, Q>(a: seq<P>, b: seq<P>, f: P -> Q)
    ensures MapSeq(a + b, f) == MapSeq(a, f) + MapSeq(b, f)
  {
  }
}
