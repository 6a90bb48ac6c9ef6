/** Fragmentation and reassembly of messages with a bounded pending set and a
    two-generation window of delivered messages. */
module Reassembly {
  import opened Bytes

  const MAX_MESSAGE_LEN := 256 * 1024
  const MAX_FRAGMENTS := 4096
  const DEFAULT_RECENT := 256

  // ---------------------------------------------------------------- messages

  /** A message as its sender splits it: chunks of at most `chunkSize` bytes. */
  datatype Message = Message(seqNo: U32, data: seq<Byte>, chunkSize: int) {

    function Chunks(): (cs: seq<seq<Byte>>)
      ensures |cs| >= 1
    {
      if data == [] then [[]]
      else if chunkSize <= 0 then [data]
      else Split(data, chunkSize)
    }

    ghost predicate Fits() {
      |data| < 0x1_0000_0000 && |Chunks()| < 0x1_0000
    }

    ghost predicate InLimits() {
      |data| <= MAX_MESSAGE_LEN && |Chunks()| <= MAX_FRAGMENTS
    }

    /** The fragment with index `i`, with the 16- and 32-bit truncations of the encoder. */
    ghost function Frag(sum: Checksum, i: nat): Fragment
      requires i < |Chunks()|
    {
      Fragment(seqNo, sum(data), ToU32(|data|), ToU16(i), ToU16(|Chunks()|), sum(Chunks()[i]), Chunks()[i])
    }
  }

  function Split(data: seq<Byte>, size: nat): (cs: seq<seq<Byte>>)
    requires size > 0
    ensures data != [] ==> |cs| >= 1
  {
    if data == [] then []
    else if |data| <= size then [data]
    else [data[..size]] + Split(data[size..], size)
  }

  lemma {:induction false} SplitPartitions(data: seq<Byte>, size: nat)
    requires size > 0
    ensures Concat(Split(data, size)) == data
    ensures |Split(data, size)| <= |data|
    ensures forall i :: 0 <= i < |Split(data, size)| ==> 0 < |Split(data, size)[i]| <= Min(size, |data|)
    ensures forall i :: 0 <= i < |Split(data, size)| - 1 ==> |Split(data, size)[i]| == size
  {
    if |data| > size {
      SplitPartitions(data[size..], size);
      assert data[..size] + data[size..] == data;
    } else if data != [] {
      assert Concat([data]) == data + Concat([]);
    }
  }

  /** Whatever the chunk size, the chunks join to the data, none is longer than the data, and
      there are at most `max(|data|, 1)` of them. */
  lemma ChunksPartition(m: Message)
    ensures Concat(m.Chunks()) == m.data
    ensures |m.Chunks()| <= Max(|m.data|, 1)
    ensures forall i :: 0 <= i < |m.Chunks()| ==> |m.Chunks()[i]| <= |m.data|
    ensures m.chunkSize > 0 ==> forall i :: 0 <= i < |m.Chunks()| ==> |m.Chunks()[i]| <= m.chunkSize
  {
    if m.data == [] {
      assert Concat([[]]) == [] + Concat([]);
    } else if m.chunkSize <= 0 {
      assert Concat([m.data]) == m.data + Concat([]);
    } else {
      SplitPartitions(m.data, m.chunkSize);
    }
  }

  /** FragmentPayload. */
  method FragmentPayload(data: seq<Byte>, maxSize: int) returns (out: seq<seq<Byte>>)
    ensures out == Message(0, data, maxSize).Chunks()
  {
    if |data| == 0 {
      return [[]];
    }
    if maxSize <= 0 {
      return [data];
    }
    out := [];
    var start := 0;
    while start < |data|
      invariant 0 <= start && out + Split(data[Min(start, |data|)..], maxSize) == Split(data, maxSize)
    {
      var end := start + maxSize;
      if end > |data| {
        end := |data|;
      }
      SplitStep(data, start, end, maxSize, out);
      out := out + [data[start..end]];
      start := start + maxSize;
    }
    assert data[Min(start, |data|)..] == [];
  }

  /** The next chunk of the splitting loop. */
  lemma SplitStep(data: seq<Byte>, start: nat, end: nat, size: nat, out: seq<seq<Byte>>)
    requires start < |data| && size > 0 && end == Min(start + size, |data|)
    ensures out + Split(data[start..], size) == (out + [data[start..end]]) + Split(data[end..], size)
  {
    var rest := data[start..];
    if |rest| <= size {
      assert rest == data[start..end] && data[end..] == [];
      assert out + [rest] == (out + [rest]) + [];
    } else {
      assert rest[..size] == data[start..end] && rest[size..] == data[end..];
    }
  }

  // --------------------------------------------------------------- fragments

  datatype Fragment = Fragment(
    seqNo: U32, crc: U32, totalLen: U32, idx: U16, total: U16, fragCrc: U32, payload: seq<Byte>)
  {
    predicate Valid(sum: Checksum) {
      && 0 < total <= MAX_FRAGMENTS
      && idx < total
      && totalLen <= MAX_MESSAGE_LEN
      && total <= Max(totalLen, 1)
      && |payload| <= totalLen
      && sum(payload) == fragCrc
    }
  }

  /** A sent fragment passes the receiver's validation exactly when its message is in the limits. */
  lemma SentFragmentValid(sum: Checksum, m: Message, i: nat)
    requires m.Fits() && i < |m.Chunks()|
    ensures m.Frag(sum, i).Valid(sum) <==> m.InLimits()
  {
    ChunksPartition(m);
  }

  // ------------------------------------------------------------------- state

  datatype Entry = Entry(totalLen: U32, crc: U32, frags: seq<Option<seq<Byte>>>, remain: int, added: nat) {

    predicate Compatible(f: Fragment) {
      crc == f.crc && totalLen == f.totalLen && |frags| == f.total
    }

    ghost function Got(): set<nat> {
      set i: nat | i < |frags| && frags[i].Some?
    }
  }

  datatype State = State(
    inbound: map<U32, Entry>, delivered: map<U32, U32>, previous: map<U32, U32>,
    maxRecent: nat, maxPending: nat, addCounter: nat)
  {
    predicate AlreadyDelivered(seqNo: U32, crc: U32) {
      if seqNo in delivered then delivered[seqNo] == crc
      else seqNo in previous && previous[seqNo] == crc
    }

    /** No dedup generation mentions `seqNo`. */
    predicate Forgotten(seqNo: U32) {
      seqNo !in delivered && seqNo !in previous
    }
  }

  datatype PushResult = Ignore | Partial | Duplicate | Delivered(data: seq<Byte>)

  function CountMissing(frags: seq<Option<seq<Byte>>>): nat {
    if frags == [] then 0 else (if frags[0].None? then 1 else 0) + CountMissing(frags[1..])
  }

  ghost predicate EntryInv(e: Entry, counter: nat) {
    |e.frags| >= 1 && e.remain == CountMissing(e.frags) >= 1 && e.added <= counter
  }

  ghost predicate DistinctAges(inbound: map<U32, Entry>) {
    forall s, t :: s in inbound && t in inbound && inbound[s].added == inbound[t].added ==> s == t
  }

  /** Every open entry still misses a fragment, and all three tables are within their caps. */
  ghost predicate Inv(st: State) {
    && st.maxRecent >= 1 && st.maxPending >= 1
    && |st.inbound| <= st.maxPending
    && |st.delivered| <= st.maxRecent
    && |st.previous| <= st.maxRecent
    && (forall s :: s in st.inbound ==> EntryInv(st.inbound[s], st.addCounter))
    && DistinctAges(st.inbound)
  }

  // --------------------------------------------- what one Push does, on values

  ghost predicate IsOldest(inbound: map<U32, Entry>, keep: U32, s: U32) {
    && s in inbound && s != keep
    && forall t :: t in inbound && t != keep ==> inbound[s].added <= inbound[t].added
  }

  lemma {:induction false} OldestExists(inbound: map<U32, Entry>, keys: set<U32>) returns (s: U32)
    requires keys != {} && keys <= inbound.Keys
    ensures s in keys && forall t :: t in keys ==> inbound[s].added <= inbound[t].added
    decreases |keys|
  {
    s :| s in keys;
    if keys != {s} {
      var r := OldestExists(inbound, keys - {s});
      if inbound[r].added < inbound[s].added {
        s := r;
      }
    }
  }

  lemma OldestWitness(inbound: map<U32, Entry>, keep: U32)
    requires inbound.Keys - {keep} != {}
    ensures exists s :: IsOldest(inbound, keep, s)
  {
    var s := OldestExists(inbound, inbound.Keys - {keep});
    assert IsOldest(inbound, keep, s);
  }

  /** The entry evictOldestIfFull drops, if any. */
  ghost function Victim(st: State, keep: U32): (v: Option<U32>)
    ensures v.Some? ==> IsOldest(st.inbound, keep, v.value)
  {
    if st.maxPending <= 0 || |st.inbound| <= st.maxPending || st.inbound.Keys - {keep} == {} then None
    else
      OldestWitness(st.inbound, keep);
      var s :| IsOldest(st.inbound, keep, s);
      Some(s)
  }

  ghost function Evict(st: State, keep: U32): State {
    match Victim(st, keep)
    case None => st
    case Some(v) => st.(inbound := st.inbound - {v})
  }

  function Opened(st: State, f: Fragment): State {
    var e := Entry(f.totalLen, f.crc, seq(f.total, _ => None), f.total, st.addCounter + 1);
    st.(inbound := st.inbound[f.seqNo := e], addCounter := st.addCounter + 1)
  }

  predicate HasEntryFor(st: State, f: Fragment) {
    f.seqNo in st.inbound && st.inbound[f.seqNo].Compatible(f)
  }

  ghost function Upsert(st: State, f: Fragment): (r: State)
    ensures HasEntryFor(r, f)
  {
    if HasEntryFor(st, f) then st else Evict(Opened(st, f), f.seqNo)
  }

  function Stored(e: Entry, f: Fragment): Entry
    requires f.idx < |e.frags|
  {
    if e.frags[f.idx].Some? then e
    else e.(frags := e.frags[f.idx := Some(f.payload)], remain := e.remain - 1)
  }

  function Store(st: State, f: Fragment): State
    requires HasEntryFor(st, f) && f.idx < f.total
  {
    st.(inbound := st.inbound[f.seqNo := Stored(st.inbound[f.seqNo], f)])
  }

  function Pieces(frags: seq<Option<seq<Byte>>>): seq<seq<Byte>> {
    seq(|frags|, i requires 0 <= i < |frags| => if frags[i].Some? then frags[i].value else [])
  }

  /** The received fragments joined, cut at the announced length. */
  function Assembled(e: Entry): seq<Byte> {
    var all := Concat(Pieces(e.frags));
    all[..Min(|all|, e.totalLen)]
  }

  function Remember(st: State, seqNo: U32, crc: U32): State {
    if |st.delivered| >= st.maxRecent
    then st.(previous := st.delivered, delivered := map[seqNo := crc])
    else st.(delivered := st.delivered[seqNo := crc])
  }

  function Finish(sum: Checksum, st: State, seqNo: U32): (State, PushResult)
    requires seqNo in st.inbound
  {
    var e := st.inbound[seqNo];
    var data := Assembled(e);
    var st' := st.(inbound := st.inbound - {seqNo});
    if sum(data) != e.crc then (st', Ignore)
    else (Remember(st', seqNo, e.crc), Delivered(data))
  }

  ghost function Push(sum: Checksum, st: State, f: Fragment): (State, PushResult) {
    if !f.Valid(sum) then (st, Ignore)
    else if st.AlreadyDelivered(f.seqNo, f.crc) then (st, Duplicate)
    else
      var st' := Store(Upsert(st, f), f);
      if st'.inbound[f.seqNo].remain > 0 then (st', Partial) else Finish(sum, st', f.seqNo)
  }

  /** The entry of another message that pushing `f` evicts, if any. */
  ghost function VictimOf(sum: Checksum, st: State, f: Fragment): Option<U32> {
    if !f.Valid(sum) || st.AlreadyDelivered(f.seqNo, f.crc) || HasEntryFor(st, f) then None
    else Victim(Opened(st, f), f.seqNo)
  }

  // ------------------------------------------------- every Push keeps Inv

  lemma {:induction false} CountMissingNone(n: nat)
    ensures CountMissing(seq(n, _ => None)) == n
  {
    if n > 0 {
      CountMissingNone(n - 1);
      assert seq<Option<seq<Byte>>>(n, _ => None)[1..] == seq(n - 1, _ => None);
    }
  }

  lemma {:induction false} CountMissingUpdate(frags: seq<Option<seq<Byte>>>, i: nat, x: seq<Byte>)
    requires i < |frags| && frags[i].None?
    ensures CountMissing(frags[i := Some(x)]) == CountMissing(frags) - 1
  {
    if i > 0 {
      assert frags[i := Some(x)][1..] == frags[1..][i - 1 := Some(x)];
      CountMissingUpdate(frags[1..], i - 1, x);
    } else {
      assert frags[i := Some(x)][1..] == frags[1..];
    }
  }

  lemma {:induction false} CountMissingZero(frags: seq<Option<seq<Byte>>>)
    ensures CountMissing(frags) == 0 <==> forall i :: 0 <= i < |frags| ==> frags[i].Some?
  {
    if frags != [] {
      CountMissingZero(frags[1..]);
      assert forall i :: 0 < i < |frags| ==> frags[i] == frags[1..][i - 1];
    }
  }

  /** The invariant between the steps of one Push: as Inv, except that the entry of `keep` may
      have just become complete. */
  ghost predicate InvExcept(st: State, keep: U32) {
    && st.maxRecent >= 1 && st.maxPending >= 1
    && |st.inbound| <= st.maxPending
    && |st.delivered| <= st.maxRecent
    && |st.previous| <= st.maxRecent
    && (forall s :: s in st.inbound && s != keep ==> EntryInv(st.inbound[s], st.addCounter))
    && (keep in st.inbound ==>
          var e := st.inbound[keep];
          |e.frags| >= 1 && e.remain == CountMissing(e.frags) && e.added <= st.addCounter)
    && DistinctAges(st.inbound)
  }

  lemma OpenedDistinct(inbound: map<U32, Entry>, counter: nat, q: U32, e: Entry)
    requires DistinctAges(inbound) && e.added == counter + 1
    requires forall s :: s in inbound ==> inbound[s].added <= counter
    ensures DistinctAges(inbound[q := e]) && |inbound[q := e]| <= |inbound| + 1
  {
    assert inbound[q := e].Keys == inbound.Keys + {q};
  }

  lemma OpenedKeepsInv(st: State, f: Fragment)
    requires Inv(st) && f.total > 0
    ensures Inv(Opened(st, f).(maxPending := st.maxPending + 1))
  {
    hide CountMissing, DistinctAges;
    CountMissingNone(f.total);
    var st1 := Opened(st, f);
    OpenedDistinct(st.inbound, st.addCounter, f.seqNo, st1.inbound[f.seqNo]);
    forall s | s in st1.inbound ensures EntryInv(st1.inbound[s], st1.addCounter) {
      assert s in st.inbound ==> EntryInv(st.inbound[s], st.addCounter);
    }
  }

  lemma WithoutKeepsDistinct(inbound: map<U32, Entry>, v: U32)
    requires DistinctAges(inbound)
    ensures DistinctAges(inbound - {v})
    ensures |inbound - {v}| == if v in inbound then |inbound| - 1 else |inbound|
  {
    var r := inbound - {v};
    assert r.Keys == inbound.Keys - {v};
    forall s, t | s in r && t in r && r[s].added == r[t].added
      ensures s == t
    {
      assert inbound[s].added == inbound[t].added;
    }
  }

  lemma UpsertKeepsInv(st: State, f: Fragment)
    requires Inv(st) && f.total > 0
    ensures Inv(Upsert(st, f))
  {
    if !HasEntryFor(st, f) {
      OpenedKeepsInv(st, f);
      var st1 := Opened(st, f);
      if |st1.inbound| > st.maxPending {
        OtherKeyExists(st1.inbound, f.seqNo);
        var v := Victim(st1, f.seqNo).value;
        WithoutKeepsDistinct(st1.inbound, v);
      }
    }
  }

  lemma OtherKeyExists(inbound: map<U32, Entry>, keep: U32)
    requires |inbound| >= 2
    ensures inbound.Keys - {keep} != {}
  {
    if inbound.Keys - {keep} == {} {
      assert inbound.Keys <= {keep};
      SubsetSize(inbound.Keys, {keep});
    }
  }

  lemma StoreKeepsInv(st: State, f: Fragment)
    requires Inv(st) && HasEntryFor(st, f) && f.idx < f.total
    ensures InvExcept(Store(st, f), f.seqNo)
  {
    var e := st.inbound[f.seqNo];
    if e.frags[f.idx].None? {
      CountMissingUpdate(e.frags, f.idx, f.payload);
    }
    assert Store(st, f).inbound.Keys == st.inbound.Keys;
  }

  lemma RememberKeepsInv(st: State, seqNo: U32, crc: U32)
    requires Inv(st)
    ensures Inv(Remember(st, seqNo, crc))
  {
    hide EntryInv, DistinctAges;
    assert st.delivered[seqNo := crc].Keys == st.delivered.Keys + {seqNo};
  }

  lemma FinishKeepsInv(sum: Checksum, st: State, seqNo: U32)
    requires InvExcept(st, seqNo) && seqNo in st.inbound
    ensures Inv(Finish(sum, st, seqNo).0)
  {
    hide Remember, Assembled, CountMissing, DistinctAges;
    WithoutKeepsDistinct(st.inbound, seqNo);
    var st' := st.(inbound := st.inbound - {seqNo});
    assert Inv(st');
    RememberKeepsInv(st', seqNo, st.inbound[seqNo].crc);
  }

  lemma PushKeepsInv(sum: Checksum, st: State, f: Fragment)
    requires Inv(st)
    ensures Inv(Push(sum, st, f).0)
  {
    if f.Valid(sum) && !st.AlreadyDelivered(f.seqNo, f.crc) {
      UpsertKeepsInv(st, f);
      StoreKeepsInv(Upsert(st, f), f);
      var st' := Store(Upsert(st, f), f);
      if st'.inbound[f.seqNo].remain <= 0 {
        FinishKeepsInv(sum, st', f.seqNo);
      }
    }
  }
}
