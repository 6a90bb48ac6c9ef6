/** What runs of Push guarantee: order-independent reassembly and the dedup window. */
module ReassemblyProperties {
  import opened Bytes
  import opened Reassembly

  // ------------------------------------------------------------- one Push

  /** The open entry holds only true fragments of `m`. */
  ghost predicate Consistent(sum: Checksum, e: Entry, m: Message) {
    && e.totalLen == |m.data| && e.crc == sum(m.data) && |e.frags| == |m.Chunks()|
    && forall i :: 0 <= i < |e.frags| && e.frags[i].Some? ==> e.frags[i].value == m.Chunks()[i]
  }

  /** Whatever is open under the message's sequence number belongs to the message. */
  ghost predicate Tracks(sum: Checksum, st: State, m: Message) {
    m.seqNo in st.inbound ==> Consistent(sum, st.inbound[m.seqNo], m)
  }

  ghost function GotIn(st: State, seqNo: U32): set<nat> {
    if seqNo in st.inbound then st.inbound[seqNo].Got() else {}
  }

  ghost predicate Complete(got: set<nat>, m: Message) {
    forall i: nat :: i < |m.Chunks()| ==> i in got
  }

  lemma CompleteEntryAssembles(sum: Checksum, e: Entry, m: Message)
    requires Consistent(sum, e, m) && CountMissing(e.frags) == 0
    ensures Assembled(e) == m.data
  {
    CountMissingZero(e.frags);
    assert Pieces(e.frags) == m.Chunks();
    ChunksPartition(m);
    assert m.data[..|m.data|] == m.data;
  }

  lemma CompleteMeansNoneMissing(e: Entry, m: Message)
    requires |e.frags| == |m.Chunks()|
    ensures Complete(e.Got(), m) <==> CountMissing(e.frags) == 0
  {
    CountMissingZero(e.frags);
    if Complete(e.Got(), m) {
      forall i | 0 <= i < |e.frags| ensures e.frags[i].Some? {
        assert i in e.Got();
      }
    }
  }

  lemma StoredGot(sum: Checksum, e: Entry, m: Message, i: nat)
    requires Consistent(sum, e, m) && m.InLimits() && i < |m.Chunks()|
    ensures Consistent(sum, Stored(e, m.Frag(sum, i)), m)
    ensures Stored(e, m.Frag(sum, i)).Got() == e.Got() + {i}
  {
    var f := m.Frag(sum, i);
    assert f.idx == i;
    if e.frags[i].Some? {
      assert i in e.Got();
    }
  }

  lemma UpsertOwn(sum: Checksum, st: State, m: Message, i: nat)
    requires Tracks(sum, st, m) && m.InLimits() && i < |m.Chunks()|
    ensures m.seqNo in Upsert(st, m.Frag(sum, i)).inbound
    ensures Consistent(sum, Upsert(st, m.Frag(sum, i)).inbound[m.seqNo], m)
    ensures Upsert(st, m.Frag(sum, i)).inbound[m.seqNo].Got() == GotIn(st, m.seqNo)
    ensures Upsert(st, m.Frag(sum, i)).delivered == st.delivered
  {
  }

  /** Pushing a fragment of a tracked, undelivered message delivers the original bytes exactly
      when it was the last one missing, and otherwise records it. */
  lemma PushOwn(sum: Checksum, st: State, m: Message, i: nat)
    requires Inv(st) && Tracks(sum, st, m) && m.InLimits() && i < |m.Chunks()|
    requires !st.AlreadyDelivered(m.seqNo, sum(m.data))
    ensures var (st', r) := Push(sum, st, m.Frag(sum, i));
            if Complete(GotIn(st, m.seqNo) + {i}, m)
            then && r == Delivered(m.data) && m.seqNo !in st'.inbound
                 && m.seqNo in st'.delivered && st'.delivered[m.seqNo] == sum(m.data)
            else && r == Partial && m.seqNo in st'.inbound && Tracks(sum, st', m)
                 && GotIn(st', m.seqNo) == GotIn(st, m.seqNo) + {i}
  {
    var f := m.Frag(sum, i);
    SentFragmentValid(sum, m, i);
    UpsertOwn(sum, st, m, i);
    UpsertKeepsInv(st, f);
    var st1 := Upsert(st, f);
    StoreKeepsInv(st1, f);
    StoredGot(sum, st1.inbound[m.seqNo], m, i);
    var e := Store(st1, f).inbound[m.seqNo];
    CompleteMeansNoneMissing(e, m);
    if CountMissing(e.frags) == 0 {
      CompleteEntryAssembles(sum, e, m);
    }
  }

  lemma UpsertFrame(st: State, f: Fragment, s: U32)
    requires s != f.seqNo
    ensures var v := if HasEntryFor(st, f) then None else Victim(Opened(st, f), f.seqNo);
            && (s in Upsert(st, f).inbound <==> s in st.inbound && v != Some(s))
            && (s in Upsert(st, f).inbound ==> Upsert(st, f).inbound[s] == st.inbound[s])
    ensures Upsert(st, f).delivered == st.delivered && Upsert(st, f).previous == st.previous
    ensures Upsert(st, f).maxRecent == st.maxRecent && Upsert(st, f).maxPending == st.maxPending
  {
  }

  lemma StoreFrame(st: State, f: Fragment, s: U32)
    requires s != f.seqNo && HasEntryFor(st, f) && f.idx < f.total
    ensures s in Store(st, f).inbound <==> s in st.inbound
    ensures s in st.inbound ==> Store(st, f).inbound[s] == st.inbound[s]
    ensures Store(st, f).Forgotten(s) <==> st.Forgotten(s)
  {
  }

  lemma FinishFrame(sum: Checksum, st: State, seqNo: U32, s: U32)
    requires s != seqNo && seqNo in st.inbound
    ensures var st' := Finish(sum, st, seqNo).0;
            && (s in st'.inbound <==> s in st.inbound)
            && (s in st.inbound ==> st'.inbound[s] == st.inbound[s])
            && (st.Forgotten(s) ==> st'.Forgotten(s))
  {
  }

  /** A Push touches the entry of another message only by evicting it. */
  lemma PushFrame(sum: Checksum, st: State, f: Fragment, s: U32)
    requires s != f.seqNo
    ensures var st' := Push(sum, st, f).0;
            && (s in st'.inbound <==> s in st.inbound && VictimOf(sum, st, f) != Some(s))
            && (s in st'.inbound ==> st'.inbound[s] == st.inbound[s])
            && (st.Forgotten(s) ==> st'.Forgotten(s))
  {
    if f.Valid(sum) && !st.AlreadyDelivered(f.seqNo, f.crc) {
      var st1 := Upsert(st, f);
      UpsertFrame(st, f, s);
      StoreFrame(st1, f, s);
      var st2 := Store(st1, f);
      if st2.inbound[f.seqNo].remain <= 0 {
        FinishFrame(sum, st2, f.seqNo, s);
      }
    }
  }

  lemma PushKeepsCaps(sum: Checksum, st: State, f: Fragment)
    ensures Push(sum, st, f).0.maxRecent == st.maxRecent
    ensures Push(sum, st, f).0.maxPending == st.maxPending
  {
    hide Victim, Entry.Compatible;
    if f.Valid(sum) && !st.AlreadyDelivered(f.seqNo, f.crc) {
      UpsertFrame(st, f, if f.seqNo == 0 then 1 else 0);
    }
  }

  // ----------------------------------------------- order-independent reassembly

  /** The state after pushing `fs` in order. */
  ghost function After(sum: Checksum, st: State, fs: seq<Fragment>): State {
    if fs == [] then st
    else Push(sum, After(sum, st, fs[..|fs| - 1]), fs[|fs| - 1]).0
  }

  lemma AfterSnoc(sum: Checksum, st: State, fs: seq<Fragment>, k: nat)
    requires k < |fs|
    ensures After(sum, st, fs[..k + 1]) == Push(sum, After(sum, st, fs[..k]), fs[k]).0
  {
    assert fs[..k + 1][..k] == fs[..k];
  }

  lemma {:induction false} AfterKeepsInv(sum: Checksum, st: State, fs: seq<Fragment>)
    requires Inv(st)
    ensures Inv(After(sum, st, fs))
    ensures After(sum, st, fs).maxPending == st.maxPending && After(sum, st, fs).maxRecent == st.maxRecent
  {
    if fs != [] {
      var st' := After(sum, st, fs[..|fs| - 1]);
      AfterKeepsInv(sum, st, fs[..|fs| - 1]);
      PushKeepsInv(sum, st', fs[|fs| - 1]);
      PushKeepsCaps(sum, st', fs[|fs| - 1]);
    }
  }

  /** Every fragment carrying the message's sequence number is one the sender made. */
  ghost predicate HonestFor(sum: Checksum, fs: seq<Fragment>, m: Message) {
    forall j :: 0 <= j < |fs| && fs[j].seqNo == m.seqNo ==> IsFragmentOf(sum, fs[j], m)
  }

  ghost predicate IsFragmentOf(sum: Checksum, f: Fragment, m: Message) {
    exists i: nat :: i < |m.Chunks()| && f == m.Frag(sum, i)
  }

  /** A message is opened only while fewer than `maxPending` are open. */
  ghost predicate PendingNeverFull(sum: Checksum, st: State, fs: seq<Fragment>) {
    forall j :: 0 <= j < |fs| ==> OpensWithinCap(After(sum, st, fs[..j]), fs[j])
  }

  ghost predicate OpensWithinCap(st: State, f: Fragment) {
    f.seqNo in st.inbound || |st.inbound| < st.maxPending
  }

  /** The fragment indices of `m` among `fs`. */
  ghost function Arrived(fs: seq<Fragment>, m: Message): set<nat> {
    set j: int | 0 <= j < |fs| && fs[j].seqNo == m.seqNo :: fs[j].idx
  }

  lemma ArrivedSnoc(fs: seq<Fragment>, k: nat, m: Message)
    requires k < |fs|
    ensures Arrived(fs[..k + 1], m)
         == Arrived(fs[..k], m) + (if fs[k].seqNo == m.seqNo then {fs[k].idx as nat} else {})
  {
    var a, b := fs[..k + 1], fs[..k];
    assert forall j :: 0 <= j < k ==> a[j] == b[j];
    assert a[k] == fs[k];
    forall x | x in Arrived(b, m) ensures x in Arrived(a, m) {
      var j :| 0 <= j < |b| && b[j].seqNo == m.seqNo && b[j].idx == x;
      assert a[j] == b[j];
    }
  }

  lemma NoVictimWithinCap(sum: Checksum, st: State, f: Fragment)
    requires Inv(st) && OpensWithinCap(st, f)
    ensures VictimOf(sum, st, f) == None
  {
    assert Opened(st, f).inbound.Keys == st.inbound.Keys + {f.seqNo};
  }

  lemma PartialForgets(sum: Checksum, st: State, f: Fragment)
    requires Push(sum, st, f).1 == Partial
    ensures Push(sum, st, f).0.delivered == st.delivered && Push(sum, st, f).0.previous == st.previous
  {
    UpsertFrame(st, f, if f.seqNo == 0 then 1 else 0);
  }

  lemma TrackOwn(sum: Checksum, st: State, m: Message, i: nat)
    requires Inv(st) && Tracks(sum, st, m) && st.Forgotten(m.seqNo) && m.InLimits() && i < |m.Chunks()|
    ensures var (st', r) := Push(sum, st, m.Frag(sum, i));
            var got := GotIn(st, m.seqNo) + {i};
            if Complete(got, m) then r == Delivered(m.data)
            else Tracks(sum, st', m) && st'.Forgotten(m.seqNo) && GotIn(st', m.seqNo) == got && r == Partial
  {
    PushOwn(sum, st, m, i);
    if !Complete(GotIn(st, m.seqNo) + {i}, m) {
      PartialForgets(sum, st, m.Frag(sum, i));
    }
  }

  lemma TrackOther(sum: Checksum, st: State, f: Fragment, m: Message)
    requires Tracks(sum, st, m) && st.Forgotten(m.seqNo)
    requires f.seqNo != m.seqNo && VictimOf(sum, st, f) != Some(m.seqNo)
    ensures var st' := Push(sum, st, f).0;
            Tracks(sum, st', m) && st'.Forgotten(m.seqNo) && GotIn(st', m.seqNo) == GotIn(st, m.seqNo)
  {
    PushFrame(sum, st, f, m.seqNo);
  }

  /** The index under which an honest fragment was made. */
  lemma FragmentIndex(sum: Checksum, f: Fragment, m: Message)
    requires IsFragmentOf(sum, f, m) && m.InLimits()
    ensures f.idx < |m.Chunks()| && f == m.Frag(sum, f.idx)
  {
    hide Message.Chunks;
    var i: nat :| i < |m.Chunks()| && f == m.Frag(sum, i);
    assert f.idx == i;
  }

  /** Until its last fragment arrives, the message's open entry holds exactly what has arrived. */
  lemma {:induction false} Reassembling(sum: Checksum, st: State, fs: seq<Fragment>, m: Message, k: nat)
    requires Inv(st) && m.seqNo !in st.inbound && st.Forgotten(m.seqNo) && m.InLimits()
    requires HonestFor(sum, fs, m) && PendingNeverFull(sum, st, fs)
    requires k <= |fs| && !Complete(Arrived(fs[..k], m), m)
    ensures var st' := After(sum, st, fs[..k]);
            Tracks(sum, st', m) && st'.Forgotten(m.seqNo) && GotIn(st', m.seqNo) == Arrived(fs[..k], m)
  {
    hide Push, VictimOf, Inv, Tracks, GotIn, State.Forgotten, After, Arrived, PendingNeverFull;
    if k == 0 {
      NothingArrived(sum, st, fs, m);
    } else {
      ArrivedSnoc(fs, k - 1, m);
      AfterSnoc(sum, st, fs, k - 1);
      Reassembling(sum, st, fs, m, k - 1);
      ReadyToStep(sum, st, fs, k - 1);
      if fs[k - 1].seqNo == m.seqNo {
        FragmentIndex(sum, fs[k - 1], m);
        TrackOwn(sum, After(sum, st, fs[..k - 1]), m, fs[k - 1].idx);
      } else {
        TrackOther(sum, After(sum, st, fs[..k - 1]), fs[k - 1], m);
      }
    }
  }

  lemma NothingArrived(sum: Checksum, st: State, fs: seq<Fragment>, m: Message)
    requires m.seqNo !in st.inbound
    ensures After(sum, st, fs[..0]) == st && Arrived(fs[..0], m) == {}
    ensures Tracks(sum, st, m) && GotIn(st, m.seqNo) == {}
  {
    assert fs[..0] == [];
  }

  lemma ReadyToStep(sum: Checksum, st: State, fs: seq<Fragment>, k: nat)
    requires Inv(st) && PendingNeverFull(sum, st, fs) && k < |fs|
    ensures Inv(After(sum, st, fs[..k]))
    ensures VictimOf(sum, After(sum, st, fs[..k]), fs[k]) == None
  {
    AfterKeepsInv(sum, st, fs[..k]);
    assert OpensWithinCap(After(sum, st, fs[..k]), fs[k]);
    NoVictimWithinCap(sum, After(sum, st, fs[..k]), fs[k]);
  }

  /** Order-independent reassembly: fragments of a fresh message, in any order and with any
      repetition, between arbitrary fragments of other messages, are answered Partial until the
      last missing one arrives, and that one delivers the original bytes. */
  lemma OrderIndependentReassembly(sum: Checksum, st: State, fs: seq<Fragment>, m: Message, k: nat)
    requires Inv(st) && m.seqNo !in st.inbound && st.Forgotten(m.seqNo) && m.InLimits()
    requires HonestFor(sum, fs, m) && PendingNeverFull(sum, st, fs)
    requires k < |fs| && fs[k].seqNo == m.seqNo && !Complete(Arrived(fs[..k], m), m)
    ensures Push(sum, After(sum, st, fs[..k]), fs[k]).1
         == if Complete(Arrived(fs[..k + 1], m), m) then Delivered(m.data) else Partial
  {
    Reassembling(sum, st, fs, m, k);
    ReadyToStep(sum, st, fs, k);
    ArrivedSnoc(fs, k, m);
    FragmentIndex(sum, fs[k], m);
    TrackOwn(sum, After(sum, st, fs[..k]), m, fs[k].idx);
  }

  /** The cap matters: with room for one open message, a fragment of a second message evicts the
      first, so both fragments of the first are answered Partial and yet it is never complete. */
  lemma EvictionLosesAcknowledged(sum: Checksum, a: Message, b: Message)
    requires a.InLimits() && b.InLimits() && a.seqNo != b.seqNo
    requires |a.Chunks()| == 2 && |b.Chunks()| == 2
    ensures var st0 := State(map[], map[], map[], 1, 1, 0);
            var (st1, r1) := Push(sum, st0, a.Frag(sum, 0));
            var (st2, r2) := Push(sum, st1, b.Frag(sum, 0));
            var (st3, r3) := Push(sum, st2, a.Frag(sum, 1));
            r1 == Partial && r2 == Partial && r3 == Partial && GotIn(st3, a.seqNo) == {1}
  {
    hide Push, VictimOf;
    var st0 := State(map[], map[], map[], 1, 1, 0);
    FirstFragment(sum, st0, a, 0);
    var st1 := Push(sum, st0, a.Frag(sum, 0)).0;
    PushFrame(sum, st0, a.Frag(sum, 0), b.seqNo);
    FirstFragment(sum, st1, b, 0);
    SentFragmentValid(sum, b, 0);
    SoleEntryEvicted(sum, st1, b.Frag(sum, 0), a.seqNo);
    PushFrame(sum, st1, b.Frag(sum, 0), a.seqNo);
    FirstFragment(sum, Push(sum, st1, b.Frag(sum, 0)).0, a, 1);
  }

  lemma FirstFragment(sum: Checksum, st: State, m: Message, i: nat)
    requires Inv(st) && m.InLimits() && |m.Chunks()| == 2 && i < 2
    requires m.seqNo !in st.inbound && st.delivered == map[] && st.previous == map[]
    ensures var (st', r) := Push(sum, st, m.Frag(sum, i));
            && r == Partial && GotIn(st', m.seqNo) == {i} && m.seqNo in st'.inbound
            && Inv(st') && st'.delivered == map[] && st'.previous == map[]
            && st'.maxPending == st.maxPending && st'.maxRecent == st.maxRecent
  {
    hide Push;
    PushOwn(sum, st, m, i);
    assert 1 - i !in GotIn(st, m.seqNo) + {i};
    assert !Complete(GotIn(st, m.seqNo) + {i}, m);
    PartialForgets(sum, st, m.Frag(sum, i));
    PushKeepsInv(sum, st, m.Frag(sum, i));
    PushKeepsCaps(sum, st, m.Frag(sum, i));
  }

  lemma SoleEntryEvicted(sum: Checksum, st: State, f: Fragment, s: U32)
    requires Inv(st) && st.maxPending == 1 && s in st.inbound && s != f.seqNo
    requires f.Valid(sum) && st.Forgotten(f.seqNo)
    ensures VictimOf(sum, st, f) == Some(s)
  {
    assert st.inbound.Keys == {s} by {
      assert {s} <= st.inbound.Keys;
      if t :| t in st.inbound && t != s {
        SubsetSize({s, t}, st.inbound.Keys);
      }
    }
    assert Opened(st, f).inbound.Keys == {s, f.seqNo};
  }

  // ------------------------------------------------------------ dedup window

  /** `(seqNo, crc)` is remembered and at most `age` deliveries were made since. */
  ghost predicate Remembers(st: State, seqNo: U32, crc: U32, age: nat) {
    || (seqNo in st.delivered && st.delivered[seqNo] == crc)
    || (&& seqNo !in st.delivered && seqNo in st.previous && st.previous[seqNo] == crc
        && |st.delivered| <= age)
  }

  lemma RememberKeeps(st: State, s: U32, c: U32, seqNo: U32, crc: U32, age: nat)
    requires Remembers(st, seqNo, crc, age) && age < st.maxRecent && s != seqNo
    ensures Remembers(Remember(st, s, c), seqNo, crc, age + 1)
  {
  }

  /** How many of the pushes of `fs` deliver a message. */
  ghost function Deliveries(sum: Checksum, st: State, fs: seq<Fragment>): nat {
    if fs == [] then 0
    else
      Deliveries(sum, st, fs[..|fs| - 1])
      + (if Push(sum, After(sum, st, fs[..|fs| - 1]), fs[|fs| - 1]).1.Delivered? then 1 else 0)
  }

  /** No push of `fs` delivers a message that reuses `seqNo` with another checksum. */
  ghost predicate NotReused(sum: Checksum, st: State, fs: seq<Fragment>, seqNo: U32, crc: U32) {
    forall j :: 0 <= j < |fs| && Push(sum, After(sum, st, fs[..j]), fs[j]).1.Delivered?
      ==> fs[j].seqNo != seqNo || fs[j].crc == crc
  }

  lemma FinishWindow(sum: Checksum, st: State, seqNo: U32)
    requires seqNo in st.inbound
    ensures var (st', r) := Finish(sum, st, seqNo);
            var w := if r.Delivered? then Remember(st, seqNo, st.inbound[seqNo].crc) else st;
            st'.delivered == w.delivered && st'.previous == w.previous && r != Partial && r != Duplicate
  {
  }

  lemma StoreWindow(st: State, f: Fragment)
    requires f.idx < f.total
    ensures var st' := Store(Upsert(st, f), f);
            && st'.delivered == st.delivered && st'.previous == st.previous
            && st'.maxRecent == st.maxRecent && HasEntryFor(st', f)
  {
    UpsertFrame(st, f, if f.seqNo == 0 then 1 else 0);
  }

  lemma PushWindow(sum: Checksum, st: State, f: Fragment)
    ensures var (st', r) := Push(sum, st, f);
            var w := if r.Delivered? then Remember(st, f.seqNo, f.crc) else st;
            st'.delivered == w.delivered && st'.previous == w.previous
    ensures Push(sum, st, f).1.Delivered? ==> !st.AlreadyDelivered(f.seqNo, f.crc)
  {
    if f.Valid(sum) && !st.AlreadyDelivered(f.seqNo, f.crc) {
      StoreWindow(st, f);
      FinishWindow(sum, Store(Upsert(st, f), f), f.seqNo);
    }
  }

  lemma {:induction false} StaysRemembered(sum: Checksum, st: State, fs: seq<Fragment>, seqNo: U32, crc: U32)
    requires Inv(st) && Remembers(st, seqNo, crc, 0)
    requires NotReused(sum, st, fs, seqNo, crc)
    requires Deliveries(sum, st, fs) <= st.maxRecent
    ensures Remembers(After(sum, st, fs), seqNo, crc, Deliveries(sum, st, fs))
  {
    if fs != [] {
      var k := |fs| - 1;
      var pre := fs[..k];
      forall j | 0 <= j < |pre| ensures pre[..j] == fs[..j] {}
      var st1 := After(sum, st, pre);
      assert NotReused(sum, st, pre, seqNo, crc) by {
        forall j | 0 <= j < |pre| && Push(sum, After(sum, st, pre[..j]), pre[j]).1.Delivered?
          ensures pre[j].seqNo != seqNo || pre[j].crc == crc
        {
          assert fs[..j] == pre[..j] && fs[j] == pre[j];
        }
      }
      StaysRemembered(sum, st, pre, seqNo, crc);
      AfterKeepsInv(sum, st, pre);
      PushWindow(sum, st1, fs[k]);
      if Push(sum, st1, fs[k]).1.Delivered? {
        assert fs[k].seqNo != seqNo;
        RememberKeeps(st1, fs[k].seqNo, fs[k].crc, seqNo, crc, Deliveries(sum, st, pre));
      }
    }
  }

  /** The dedup window: once a message is delivered, every valid fragment of it is answered
      Duplicate for at least `maxRecent` further deliveries, whatever else is pushed, unless a
      delivery reuses its sequence number with another checksum. */
  lemma DedupWindow(sum: Checksum, st: State, f: Fragment, fs: seq<Fragment>, g: Fragment)
    requires Inv(st) && Push(sum, st, f).1.Delivered?
    requires var st' := Push(sum, st, f).0;
             NotReused(sum, st', fs, f.seqNo, f.crc) && Deliveries(sum, st', fs) <= st.maxRecent
    requires g.Valid(sum) && g.seqNo == f.seqNo && g.crc == f.crc
    ensures var last := After(sum, Push(sum, st, f).0, fs);
            Push(sum, last, g) == (last, Duplicate)
  {
    var st' := Push(sum, st, f).0;
    PushWindow(sum, st, f);
    PushKeepsInv(sum, st, f);
    PushKeepsCaps(sum, st, f);
    StaysRemembered(sum, st', fs, f.seqNo, f.crc);
  }

  /** Both generations together never exceed twice the cap, and no open entry is complete. */
  lemma WindowBound(sum: Checksum, st: State, fs: seq<Fragment>)
    requires Inv(st)
    ensures var st' := After(sum, st, fs);
            && |st'.delivered| + |st'.previous| <= 2 * st.maxRecent
            && |st'.inbound| <= st.maxPending
            && forall s :: s in st'.inbound ==> st'.inbound[s].remain > 0
  {
    AfterKeepsInv(sum, st, fs);
  }
}
