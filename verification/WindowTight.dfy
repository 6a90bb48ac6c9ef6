/** The dedup window is no longer than promised, for any size: a run of one-fragment messages in
    which one more delivery than the window covers makes an old message new again. */
module WindowTight {
  import opened Bytes
  import opened Reassembly
  import opened ReassemblyProperties

  /** The empty message: a single fragment delivers it. */
  function Solo(q: U32): Message {
    Message(q, [], 0)
  }

  ghost function SoloFrag(sum: Checksum, q: U32): Fragment {
    Solo(q).Frag(sum, 0)
  }

  /** Messages 1 to `n`, one after the other. */
  ghost function Solos(sum: Checksum, n: nat): seq<Fragment>
    requires n < 0x1_0000_0000
  {
    if n == 0 then [] else Solos(sum, n - 1) + [SoloFrag(sum, n)]
  }

  function Fresh(maxRecent: nat): State {
    State(map[], map[], map[], maxRecent, maxRecent, 0)
  }

  ghost function Fed(sum: Checksum, maxRecent: nat, n: nat): State
    requires n < 0x1_0000_0000
  {
    After(sum, Fresh(maxRecent), Solos(sum, n))
  }

  lemma SoloPush(sum: Checksum, st: State, q: U32)
    requires Inv(st) && st.inbound == map[] && !st.AlreadyDelivered(q, sum([]))
    ensures var (st', r) := Push(sum, st, SoloFrag(sum, q));
            && r == Delivered([]) && st'.inbound == map[] && Inv(st') && st'.maxRecent == st.maxRecent
            && st'.delivered == Remember(st, q, sum([])).delivered
            && st'.previous == Remember(st, q, sum([])).previous
  {
    hide Push;
    var m, f := Solo(q), SoloFrag(sum, q);
    assert m.Chunks() == [[]] && m.InLimits();
    PushOwn(sum, st, m, 0);
    assert Complete(GotIn(st, q) + {0}, m);
    PushWindow(sum, st, f);
    PushKeepsInv(sum, st, f);
    PushKeepsCaps(sum, st, f);
    var st' := Push(sum, st, f).0;
    forall s | s in st'.inbound ensures false {
      if s != q {
        PushFrame(sum, st, f, s);
      }
    }
  }

  /** A generation that remembers exactly the messages above `lo` up to `hi`. */
  ghost predicate IsGen(m: map<U32, U32>, lo: nat, hi: nat, crc: U32) {
    && lo <= hi && |m| == hi - lo
    && (forall q: U32 :: q in m <==> lo < q <= hi)
    && forall q: U32 :: q in m ==> m[q] == crc
  }

  lemma GenGrows(m: map<U32, U32>, lo: nat, hi: nat, crc: U32)
    requires IsGen(m, lo, hi, crc) && hi + 1 < 0x1_0000_0000
    ensures IsGen(m[hi + 1 := crc], lo, hi + 1, crc)
  {
    var q: U32 := hi + 1;
    assert q !in m && m[q := crc].Keys == m.Keys + {q};
    assert |m[q := crc].Keys| == |m.Keys| + 1;
  }

  lemma GenStarts(hi: nat, crc: U32)
    requires hi + 1 < 0x1_0000_0000
    ensures IsGen(map[hi + 1 := crc], hi, hi + 1, crc)
  {
    var q: U32 := hi + 1;
    assert map[q := crc].Keys == {q};
    assert |map[q := crc].Keys| == 1;
  }

  /** What is remembered after `n` deliveries. */
  ghost predicate Window(st: State, r: nat, n: nat, crc: U32) {
    && st.inbound == map[] && Inv(st) && st.maxRecent == r
    && if n <= r then IsGen(st.delivered, 0, n, crc) && st.previous == map[]
       else if n <= 2 * r then IsGen(st.delivered, r, n, crc) && IsGen(st.previous, 0, r, crc)
       else IsGen(st.delivered, 2 * r, n, crc) && IsGen(st.previous, r, 2 * r, crc)
  }

  lemma WindowStep(sum: Checksum, st: State, r: nat, n: nat)
    requires r >= 1 && n < 2 * r + 1 < 0x1_0000_0000 && Window(st, r, n, sum([]))
    ensures var (st', res) := Push(sum, st, SoloFrag(sum, n + 1));
            res == Delivered([]) && Window(st', r, n + 1, sum([]))
  {
    hide Push;
    SoloPush(sum, st, n + 1);
    GenGrows(st.delivered, if n <= r then 0 else r, n, sum([]));
    GenStarts(n, sum([]));
  }

  lemma FedStep(sum: Checksum, r: nat, n: nat)
    requires 0 < n < 0x1_0000_0000
    ensures Fed(sum, r, 0) == Fresh(r)
    ensures Fed(sum, r, n) == Push(sum, Fed(sum, r, n - 1), SoloFrag(sum, n)).0
  {
    hide Push, SoloFrag;
    SolosLength(sum, n - 1);
    assert Solos(sum, n)[..n - 1] == Solos(sum, n - 1) && Solos(sum, n)[n - 1] == SoloFrag(sum, n);
  }

  lemma {:induction false} SolosRun(sum: Checksum, r: nat, n: nat)
    requires r >= 1 && n <= 2 * r + 1 < 0x1_0000_0000
    ensures Window(Fed(sum, r, n), r, n, sum([]))
    ensures n > 0 ==> Push(sum, Fed(sum, r, n - 1), SoloFrag(sum, n)).1 == Delivered([])
  {
    hide Window, Push, Fed, SoloFrag;
    if n == 0 {
      FedStep(sum, r, 1);
      WindowStart(r, sum([]));
    } else {
      SolosRun(sum, r, n - 1);
      WindowStep(sum, Fed(sum, r, n - 1), r, n - 1);
      FedStep(sum, r, n);
    }
  }

  lemma WindowStart(r: nat, crc: U32)
    requires r >= 1
    ensures Window(Fresh(r), r, 0, crc)
  {
  }

  lemma {:induction false} SolosLength(sum: Checksum, n: nat)
    requires n < 0x1_0000_0000
    ensures |Solos(sum, n)| == n
  {
    if n > 0 {
      SolosLength(sum, n - 1);
    }
  }

  /** The window is tight for every `maxRecent`: deliver messages 1, 2, 3 and so on. After
      `maxRecent` further deliveries message number `maxRecent` is still answered Duplicate, and
      after one more it is delivered a second time. */
  lemma WindowIsTight(sum: Checksum, maxRecent: nat)
    requires 1 <= maxRecent && 2 * maxRecent + 1 < 0x1_0000_0000
    ensures forall n: nat :: 1 <= n <= 2 * maxRecent + 1 ==>
              Push(sum, Fed(sum, maxRecent, n - 1), SoloFrag(sum, n)).1 == Delivered([])
    ensures Push(sum, Fed(sum, maxRecent, 2 * maxRecent), SoloFrag(sum, maxRecent)).1 == Duplicate
    ensures Push(sum, Fed(sum, maxRecent, 2 * maxRecent + 1), SoloFrag(sum, maxRecent)).1 == Delivered([])
  {
    hide Push, Fed, SoloFrag;
    forall n: nat | 1 <= n <= 2 * maxRecent + 1
      ensures Push(sum, Fed(sum, maxRecent, n - 1), SoloFrag(sum, n)).1 == Delivered([])
    {
      SolosRun(sum, maxRecent, n);
    }
    var r := maxRecent;
    SolosRun(sum, r, 2 * r);
    SolosRun(sum, r, 2 * r + 1);
    StillKnown(sum, Fed(sum, r, 2 * r), r);
    SoloPush(sum, Fed(sum, r, 2 * r + 1), r);
  }

  lemma StillKnown(sum: Checksum, st: State, r: nat)
    requires r >= 1 && 2 * r < 0x1_0000_0000 && Window(st, r, 2 * r, sum([]))
    ensures Push(sum, st, SoloFrag(sum, r)).1 == Duplicate
  {
    assert Solo(r).Chunks() == [[]];
    SentFragmentValid(sum, Solo(r), 0);
  }
}
