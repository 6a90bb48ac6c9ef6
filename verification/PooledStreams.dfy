/** Any number of connections sharing one pool of plaintext buffers: every interleaving of their
    pushes, reads and closes. A buffer is an identity with contents that are overwritten when it
    is used again, so handing bytes out from a buffer that is already back in the pool would show. */
module PooledStreams {
  import opened Bytes

  const INBOUND_QUEUE := 128

  /** `frames` are the plaintexts accepted so far, `base` how many of them have left the queue, and
      `out` the bytes read so far. The other fields are what the connection stores: the queue, the
      buffer a push is about to send, the buffer being read with the offset reached, the close flag. */
  datatype Conn = Conn(
    queue: seq<nat>, flying: Option<nat>, left: Option<(nat, nat)>, closed: bool,
    frames: seq<seq<Byte>>, base: nat, out: seq<Byte>)

  /** Who may touch a buffer; a queued one is numbered by the frame it carries. */
  datatype Owner = Nobody | Pool | Pusher(c: nat) | Queue(c: nat, k: nat) | Reader(c: nat)

  /** The pool is a multiset: putting a buffer back twice would make two copies of it. `owner` is
      bookkeeping that no step looks at. */
  datatype World = World(heap: map<nat, seq<Byte>>, pool: multiset<nat>, conns: map<nat, Conn>, owner: map<nat, Owner>)

  /** A released buffer is kept or dropped: the pool drops oversized ones and may drop any. */
  datatype Event =
    | Open(c: nat, b: nat, plaintext: seq<Byte>)        // a push decrypts into a buffer
    | OpenFails(c: nat, b: nat, junk: seq<Byte>, keep: bool)
    | Send(c: nat)                                      // the push hands it to the queue
    | Abandon(c: nat, keep: bool)                       // or finds the connection closed
    | ReadFrame(c: nat, room: nat, keep: bool)          // a read copies from one buffer
    | Close(c: nat)
    | DrainOne(c: nat, keep: bool)

  function Fresh(): Conn {
    Conn([], None, None, false, [], 0, [])
  }

  function Start(cs: set<nat>): World {
    World(map[], multiset{}, map c | c in cs :: Fresh(), map[])
  }

  /** The bytes of the current buffer that have not been read. */
  function Leftover(heap: map<nat, seq<Byte>>, conn: Conn): seq<Byte> {
    match conn.left
    case None => []
    case Some((b, off)) => if b in heap && off <= |heap[b]| then heap[b][off..] else []
  }

  ghost predicate Enabled(w: World, ev: Event) {
    ev.c in w.conns &&
    var conn := w.conns[ev.c];
    match ev
    case Open(_, b, _) => conn.flying == None && (b in w.pool || b !in w.heap)
    case OpenFails(_, b, _, _) => conn.flying == None && (b in w.pool || b !in w.heap)
    case Send(_) => conn.flying.Some? && conn.flying.value in w.heap && |conn.queue| < INBOUND_QUEUE
    case Abandon(_, _) => conn.flying.Some? && conn.closed
    case ReadFrame(_, room, _) => room > 0 && (Leftover(w.heap, conn) == [] ==> conn.queue != [])
    case Close(_) => true
    case DrainOne(_, _) => conn.closed && conn.queue != []
  }

  function Put(w: World, b: nat, keep: bool): World {
    if keep then w.(pool := w.pool + multiset{b}, owner := w.owner[b := Pool])
    else w.(owner := w.owner[b := Nobody])
  }

  function Acquire(w: World, b: nat, contents: seq<Byte>, o: Owner): World {
    w.(pool := w.pool - multiset{b}, heap := w.heap[b := contents], owner := w.owner[b := o])
  }

  function Set(w: World, c: nat, conn: Conn): World {
    w.(conns := w.conns[c := conn])
  }

  /** The buffer to read from, from where, and the connection without it. */
  function Source(heap: map<nat, seq<Byte>>, conn: Conn): (nat, nat, Conn)
    requires Leftover(heap, conn) == [] ==> conn.queue != []
  {
    if Leftover(heap, conn) == [] then (conn.queue[0], 0, conn.(queue := conn.queue[1..], base := conn.base + 1))
    else (conn.left.value.0, conn.left.value.1, conn)
  }

  /** The connection after copying up to `room` bytes of `data`, the contents of buffer `b`. */
  function Copied(conn: Conn, b: nat, off: nat, room: nat, data: seq<Byte>): Conn {
    var end := Min(off + room, |data|);
    conn.(out := conn.out + (if off <= end then data[off..end] else []),
          left := if end == |data| then None else Some((b, end)))
  }

  function DoRead(w: World, c: nat, room: nat, keep: bool): World
    requires c in w.conns && (Leftover(w.heap, w.conns[c]) == [] ==> w.conns[c].queue != [])
  {
    var (b, off, conn) := Source(w.heap, w.conns[c]);
    var conn' := Copied(conn, b, off, room, if b in w.heap then w.heap[b] else []);
    if conn'.left == None then Put(Set(w, c, conn'), b, keep)
    else Set(w, c, conn').(owner := w.owner[b := Reader(c)])
  }

  ghost function Step(w: World, ev: Event): World
    requires Enabled(w, ev)
  {
    var conn := w.conns[ev.c];
    match ev
    case Open(c, b, plaintext) => Acquire(Set(w, c, conn.(flying := Some(b))), b, plaintext, Pusher(c))
    case OpenFails(c, b, junk, keep) => Put(Acquire(w, b, junk, Pusher(c)), b, keep)
    case Send(c) =>
      var b := conn.flying.value;
      Set(w, c, conn.(flying := None, queue := conn.queue + [b], frames := conn.frames + [w.heap[b]]))
      .(owner := w.owner[b := Queue(c, conn.base + |conn.queue|)])
    case Abandon(c, keep) => Put(Set(w, c, conn.(flying := None)), conn.flying.value, keep)
    case ReadFrame(c, room, keep) => DoRead(w, c, room, keep)
    case Close(c) => Set(w, c, conn.(closed := true))
    case DrainOne(c, keep) =>
      Put(Set(w, c, conn.(queue := conn.queue[1..], base := conn.base + 1)), conn.queue[0], keep)
  }

  ghost predicate IsRun(worlds: seq<World>, events: seq<Event>) {
    && |worlds| == |events| + 1
    && (exists cs :: worlds[0] == Start(cs))
    && forall k :: 0 <= k < |events| ==> Enabled(worlds[k], events[k]) && worlds[k + 1] == Step(worlds[k], events[k])
  }

  // ------------------------------------------------------------------ invariants

  ghost predicate Owned(owner: map<nat, Owner>, b: nat, o: Owner) {
    b in owner && owner[b] == o
  }

  ghost predicate QueueOk(heap: map<nat, seq<Byte>>, owner: map<nat, Owner>, c: nat, conn: Conn) {
    && |conn.queue| <= INBOUND_QUEUE && conn.base + |conn.queue| == |conn.frames|
    && forall i :: 0 <= i < |conn.queue| ==>
         && Owned(owner, conn.queue[i], Queue(c, conn.base + i))
         && conn.queue[i] in heap && heap[conn.queue[i]] == conn.frames[conn.base + i]
  }

  ghost predicate HandsOk(heap: map<nat, seq<Byte>>, owner: map<nat, Owner>, c: nat, conn: Conn) {
    && (conn.flying.Some? ==> conn.flying.value in heap && Owned(owner, conn.flying.value, Pusher(c)))
    && (conn.left.Some? ==>
          var (b, off) := conn.left.value;
          b in heap && off < |heap[b]| && Owned(owner, b, Reader(c)))
  }

  /** Before a close, what has been read and what is left of the current buffer are the first
      `base` frames. */
  ghost predicate ReadOk(heap: map<nat, seq<Byte>>, conn: Conn) {
    && conn.base <= |conn.frames|
    && (!conn.closed ==> conn.out + Leftover(heap, conn) == Concat(conn.frames[..conn.base]))
  }

  ghost predicate ConnOk(heap: map<nat, seq<Byte>>, owner: map<nat, Owner>, c: nat, conn: Conn) {
    QueueOk(heap, owner, c, conn) && HandsOk(heap, owner, c, conn) && ReadOk(heap, conn)
  }

  ghost predicate PoolOk(pool: multiset<nat>, heap: map<nat, seq<Byte>>, owner: map<nat, Owner>) {
    && owner.Keys == heap.Keys
    && forall b :: b in pool ==> pool[b] == 1 && Owned(owner, b, Pool)
  }

  ghost predicate Inv(w: World) {
    && PoolOk(w.pool, w.heap, w.owner)
    && forall c :: c in w.conns ==> ConnOk(w.heap, w.owner, c, w.conns[c])
  }

  // ------------------------------------------------------------------ each step

  ghost predicate HeldBy(o: Owner, c: nat) {
    (o.Pusher? || o.Queue? || o.Reader?) && o.c == c
  }

  /** A connection does not notice what happens to a buffer it does not hold. */
  lemma OthersKeep(
    heap: map<nat, seq<Byte>>, owner: map<nat, Owner>, c: nat, conn: Conn, b: nat, contents: seq<Byte>, o: Owner)
    requires ConnOk(heap, owner, c, conn) && (b in owner ==> !HeldBy(owner[b], c))
    ensures ConnOk(heap[b := contents], owner[b := o], c, conn)
  {
    forall i | 0 <= i < |conn.queue| ensures conn.queue[i] != b {
      assert Owned(owner, conn.queue[i], Queue(c, conn.base + i));
    }
  }

  /** A step of connection `c` on buffer `b`. */
  lemma OneConnMoves(w: World, w': World, c: nat, b: nat, contents: seq<Byte>, o: Owner)
    requires Inv(w) && c in w.conns && w'.conns.Keys == w.conns.Keys
    requires forall d :: d in w.conns && d != c ==> w'.conns[d] == w.conns[d]
    requires w'.heap == w.heap[b := contents] && w'.owner == w.owner[b := o]
    requires b in w.owner ==> w.owner[b].Pool? || HeldBy(w.owner[b], c)
    requires PoolOk(w'.pool, w'.heap, w'.owner) && ConnOk(w'.heap, w'.owner, c, w'.conns[c])
    ensures Inv(w')
  {
    hide ConnOk, PoolOk;
    forall d | d in w.conns && d != c ensures ConnOk(w'.heap, w'.owner, d, w'.conns[d]) {
      OthersKeep(w.heap, w.owner, d, w.conns[d], b, contents, o);
    }
  }

  lemma PoolPut(pool: multiset<nat>, heap: map<nat, seq<Byte>>, owner: map<nat, Owner>, b: nat, keep: bool)
    requires PoolOk(pool, heap, owner) && b in owner && !owner[b].Pool?
    ensures PoolOk(if keep then pool + multiset{b} else pool, heap, owner[b := if keep then Pool else Nobody])
    ensures b !in pool
  {
  }

  lemma PoolAcquire(
    pool: multiset<nat>, heap: map<nat, seq<Byte>>, owner: map<nat, Owner>, b: nat, contents: seq<Byte>, o: Owner)
    requires PoolOk(pool, heap, owner) && (b in pool || b !in heap)
    ensures PoolOk(pool - multiset{b}, heap[b := contents], owner[b := o])
  {
  }

  lemma OpenKeeps(w: World, c: nat, b: nat, plaintext: seq<Byte>)
    requires Inv(w) && Enabled(w, Open(c, b, plaintext))
    ensures Inv(Step(w, Open(c, b, plaintext)))
  {
    hide QueueOk, HandsOk, ReadOk, PoolOk;
    var w' := Step(w, Open(c, b, plaintext));
    assert b in w.owner ==> w.owner[b].Pool? by { AcquiredFromPool(w, b); }
    PoolAcquire(w.pool, w.heap, w.owner, b, plaintext, Pusher(c));
    OthersKeep(w.heap, w.owner, c, w.conns[c], b, plaintext, Pusher(c));
    ConnOpens(w'.heap, w'.owner, c, w.conns[c], b);
    OneConnMoves(w, w', c, b, plaintext, Pusher(c));
  }

  lemma AcquiredFromPool(w: World, b: nat)
    requires PoolOk(w.pool, w.heap, w.owner) && (b in w.pool || b !in w.heap)
    ensures b in w.owner ==> w.owner[b].Pool?
  {
  }

  lemma ConnOpens(heap: map<nat, seq<Byte>>, owner: map<nat, Owner>, c: nat, conn: Conn, b: nat)
    requires ConnOk(heap, owner, c, conn) && b in heap && Owned(owner, b, Pusher(c))
    ensures ConnOk(heap, owner, c, conn.(flying := Some(b)))
  {
    assert Leftover(heap, conn.(flying := Some(b))) == Leftover(heap, conn);
  }

  lemma OpenFailsKeeps(w: World, c: nat, b: nat, junk: seq<Byte>, keep: bool)
    requires Inv(w) && Enabled(w, OpenFails(c, b, junk, keep))
    ensures Inv(Step(w, OpenFails(c, b, junk, keep)))
  {
    hide QueueOk, HandsOk, ReadOk, PoolOk;
    var ev := OpenFails(c, b, junk, keep);
    var o := if keep then Pool else Nobody;
    AcquiredFromPool(w, b);
    PoolAcquire(w.pool, w.heap, w.owner, b, junk, Pusher(c));
    PoolPut(w.pool - multiset{b}, w.heap[b := junk], w.owner[b := Pusher(c)], b, keep);
    assert w.owner[b := Pusher(c)][b := o] == w.owner[b := o];
    OthersKeep(w.heap, w.owner, c, w.conns[c], b, junk, o);
    OneConnMoves(w, Step(w, ev), c, b, junk, o);
  }

  lemma SendKeeps(w: World, c: nat)
    requires Inv(w) && Enabled(w, Send(c))
    ensures Inv(Step(w, Send(c)))
  {
    hide QueueOk, ReadOk, HandsOk, PoolOk;
    var w' := Step(w, Send(c));
    var conn := w.conns[c];
    var b := conn.flying.value;
    assert Owned(w.owner, b, Pusher(c)) by { FlyingOwned(w.heap, w.owner, c, conn); }
    assert w.heap == w.heap[b := w.heap[b]];
    PoolUntouched(w.pool, w.heap, w.owner, b, Queue(c, conn.base + |conn.queue|));
    ConnSends(w.heap, w.owner, c, conn);
    OneConnMoves(w, w', c, b, w.heap[b], Queue(c, conn.base + |conn.queue|));
  }

  lemma FlyingOwned(heap: map<nat, seq<Byte>>, owner: map<nat, Owner>, c: nat, conn: Conn)
    requires HandsOk(heap, owner, c, conn) && conn.flying.Some?
    ensures conn.flying.value in heap && Owned(owner, conn.flying.value, Pusher(c))
  {
  }

  lemma PoolUntouched(pool: multiset<nat>, heap: map<nat, seq<Byte>>, owner: map<nat, Owner>, b: nat, o: Owner)
    requires PoolOk(pool, heap, owner) && b in owner && !owner[b].Pool?
    ensures PoolOk(pool, heap, owner[b := o])
  {
  }

  lemma ConnSends(heap: map<nat, seq<Byte>>, owner: map<nat, Owner>, c: nat, conn: Conn)
    requires ConnOk(heap, owner, c, conn) && conn.flying.Some? && |conn.queue| < INBOUND_QUEUE
    ensures var b := conn.flying.value;
            && b in heap
            && ConnOk(heap, owner[b := Queue(c, conn.base + |conn.queue|)], c,
                      conn.(flying := None, queue := conn.queue + [b], frames := conn.frames + [heap[b]]))
  {
    var b := conn.flying.value;
    var conn' := conn.(flying := None, queue := conn.queue + [b], frames := conn.frames + [heap[b]]);
    assert conn'.frames[..conn.base] == conn.frames[..conn.base];
    assert Leftover(heap, conn') == Leftover(heap, conn);
  }

  lemma AbandonKeeps(w: World, c: nat, keep: bool)
    requires Inv(w) && Enabled(w, Abandon(c, keep))
    ensures Inv(Step(w, Abandon(c, keep)))
  {
    hide QueueOk, ReadOk, HandsOk, PoolOk;
    var conn := w.conns[c];
    var b := conn.flying.value;
    var o := if keep then Pool else Nobody;
    FlyingOwned(w.heap, w.owner, c, conn);
    PoolPut(w.pool, w.heap, w.owner, b, keep);
    assert w.heap == w.heap[b := w.heap[b]];
    ConnAbandons(w.heap, w.owner, c, conn, o);
    OneConnMoves(w, Step(w, Abandon(c, keep)), c, b, w.heap[b], o);
  }

  lemma ConnAbandons(heap: map<nat, seq<Byte>>, owner: map<nat, Owner>, c: nat, conn: Conn, o: Owner)
    requires ConnOk(heap, owner, c, conn) && conn.flying.Some?
    ensures ConnOk(heap, owner[conn.flying.value := o], c, conn.(flying := None))
  {
    assert Leftover(heap, conn.(flying := None)) == Leftover(heap, conn);
  }

  lemma CloseKeeps(w: World, c: nat)
    requires Inv(w) && Enabled(w, Close(c))
    ensures Inv(Step(w, Close(c)))
  {
    var w' := Step(w, Close(c));
    forall d | d in w.conns ensures ConnOk(w'.heap, w'.owner, d, w'.conns[d]) {
      assert ConnOk(w.heap, w.owner, d, w.conns[d]);
    }
  }

  lemma DrainKeeps(w: World, c: nat, keep: bool)
    requires Inv(w) && Enabled(w, DrainOne(c, keep))
    ensures Inv(Step(w, DrainOne(c, keep)))
  {
    hide QueueOk, ReadOk, HandsOk, PoolOk;
    var conn := w.conns[c];
    var o := if keep then Pool else Nobody;
    var b := conn.queue[0];
    HeadOwned(w.heap, w.owner, c, conn);
    PoolPut(w.pool, w.heap, w.owner, b, keep);
    assert w.heap == w.heap[b := w.heap[b]];
    ConnDrains(w.heap, w.owner, c, conn, o);
    OneConnMoves(w, Step(w, DrainOne(c, keep)), c, b, w.heap[b], o);
  }

  lemma HeadOwned(heap: map<nat, seq<Byte>>, owner: map<nat, Owner>, c: nat, conn: Conn)
    requires QueueOk(heap, owner, c, conn) && conn.queue != []
    ensures conn.queue[0] in heap && Owned(owner, conn.queue[0], Queue(c, conn.base))
    ensures conn.base < |conn.frames| && heap[conn.queue[0]] == conn.frames[conn.base]
  {
    assert Owned(owner, conn.queue[0], Queue(c, conn.base + 0));
  }

  lemma ConnDrains(heap: map<nat, seq<Byte>>, owner: map<nat, Owner>, c: nat, conn: Conn, o: Owner)
    requires ConnOk(heap, owner, c, conn) && conn.queue != [] && conn.closed
    ensures ConnOk(heap, owner[conn.queue[0] := o], c, conn.(queue := conn.queue[1..], base := conn.base + 1))
  {
    QueueAdvances(heap, owner, c, conn, o);
    HeadOwned(heap, owner, c, conn);
  }

  lemma QueueAdvances(heap: map<nat, seq<Byte>>, owner: map<nat, Owner>, c: nat, conn: Conn, o: Owner)
    requires QueueOk(heap, owner, c, conn) && conn.queue != []
    ensures QueueOk(heap, owner[conn.queue[0] := o], c, conn.(queue := conn.queue[1..], base := conn.base + 1))
  {
    var conn' := conn.(queue := conn.queue[1..], base := conn.base + 1);
    forall i | 0 <= i < |conn'.queue|
      ensures Owned(owner[conn.queue[0] := o], conn'.queue[i], Queue(c, conn'.base + i))
      ensures conn'.queue[i] in heap && heap[conn'.queue[i]] == conn'.frames[conn'.base + i]
    {
      assert Owned(owner, conn.queue[i + 1], Queue(c, conn.base + (i + 1)));
      assert Owned(owner, conn.queue[0], Queue(c, conn.base + 0));
    }
  }

  // Reading: the buffer to read from is the current one or the head of the queue.

  /** What the copy starts from: the bytes of `b` from `off` on are next in the stream. */
  ghost predicate Ready(heap: map<nat, seq<Byte>>, owner: map<nat, Owner>, c: nat, conn: Conn, b: nat, off: nat, o: Owner) {
    && b in heap && off <= |heap[b]| && b in owner && HeldBy(owner[b], c)
    && QueueOk(heap, owner[b := o], c, conn)
    && (conn.flying.Some? ==>
          b != conn.flying.value && conn.flying.value in heap && Owned(owner, conn.flying.value, Pusher(c)))
    && conn.base <= |conn.frames|
    && (!conn.closed ==> conn.out + heap[b][off..] == Concat(conn.frames[..conn.base]))
  }

  lemma HeadReady(heap: map<nat, seq<Byte>>, owner: map<nat, Owner>, c: nat, conn: Conn, o: Owner)
    requires ConnOk(heap, owner, c, conn) && Leftover(heap, conn) == [] && conn.queue != []
    ensures conn.left == None
    ensures Ready(heap, owner, c, conn.(queue := conn.queue[1..], base := conn.base + 1), conn.queue[0], 0, o)
  {
    var b := conn.queue[0];
    HeadOwned(heap, owner, c, conn);
    QueueAdvances(heap, owner, c, conn, o);
    assert conn.frames[..conn.base + 1] == conn.frames[..conn.base] + [conn.frames[conn.base]];
    ConcatSnoc(conn.frames[..conn.base], conn.frames[conn.base]);
    assert heap[b][0..] == heap[b];
    assert conn.out + Leftover(heap, conn) == conn.out;
  }

  lemma CurrentReady(heap: map<nat, seq<Byte>>, owner: map<nat, Owner>, c: nat, conn: Conn, o: Owner)
    requires ConnOk(heap, owner, c, conn) && Leftover(heap, conn) != []
    ensures conn.left.Some? && Ready(heap, owner, c, conn, conn.left.value.0, conn.left.value.1, o)
  {
    var b := conn.left.value.0;
    forall i | 0 <= i < |conn.queue| ensures Owned(owner[b := o], conn.queue[i], Queue(c, conn.base + i)) {
      assert Owned(owner, conn.queue[i], Queue(c, conn.base + i));
    }
  }

  lemma ConnCopies(
    heap: map<nat, seq<Byte>>, owner: map<nat, Owner>, c: nat, conn: Conn, b: nat, off: nat, room: nat, o: Owner)
    requires Ready(heap, owner, c, conn, b, off, o)
    requires off + room < |heap[b]| ==> o == Reader(c)
    ensures ConnOk(heap, owner[b := o], c, Copied(conn, b, off, room, heap[b]))
  {
    hide QueueOk;
    var data := heap[b];
    var end := Min(off + room, |data|);
    var conn' := Copied(conn, b, off, room, data);
    assert data[off..] == data[off..end] + data[end..];
    assert conn'.out + data[end..] == conn.out + data[off..];
    assert Leftover(heap, conn') == data[end..];
    assert QueueOk(heap, owner[b := o], c, conn') by { SameQueue(heap, owner[b := o], c, conn, conn'); }
  }

  lemma SameQueue(heap: map<nat, seq<Byte>>, owner: map<nat, Owner>, c: nat, conn: Conn, conn': Conn)
    requires QueueOk(heap, owner, c, conn)
    requires conn'.queue == conn.queue && conn'.base == conn.base && conn'.frames == conn.frames
    ensures QueueOk(heap, owner, c, conn')
  {
  }

  lemma ReadKeeps(w: World, c: nat, room: nat, keep: bool)
    requires Inv(w) && Enabled(w, ReadFrame(c, room, keep))
    ensures Inv(Step(w, ReadFrame(c, room, keep)))
  {
    hide ConnOk, PoolOk, QueueOk, Concat, Leftover;
    var w' := Step(w, ReadFrame(c, room, keep));
    var (b, off, conn) := Source(w.heap, w.conns[c]);
    var last := b in w.heap && off + room >= |w.heap[b]|;
    var o := if !last then Reader(c) else if keep then Pool else Nobody;
    if Leftover(w.heap, w.conns[c]) == [] {
      HeadReady(w.heap, w.owner, c, w.conns[c], o);
    } else {
      CurrentReady(w.heap, w.owner, c, w.conns[c], o);
    }
    ConnCopies(w.heap, w.owner, c, conn, b, off, room, o);
    assert w.heap == w.heap[b := w.heap[b]];
    PoolPut(w.pool, w.heap, w.owner, b, keep);
    PoolUntouched(w.pool, w.heap, w.owner, b, Reader(c));
    OneConnMoves(w, w', c, b, w.heap[b], o);
  }

  lemma StepKeeps(w: World, ev: Event)
    requires Inv(w) && Enabled(w, ev)
    ensures Inv(Step(w, ev))
  {
    hide Inv, Step;
    match ev
    case Open(c, b, plaintext) => OpenKeeps(w, c, b, plaintext);
    case OpenFails(c, b, junk, keep) => OpenFailsKeeps(w, c, b, junk, keep);
    case Send(c) => SendKeeps(w, c);
    case Abandon(c, keep) => AbandonKeeps(w, c, keep);
    case ReadFrame(c, room, keep) => ReadKeeps(w, c, room, keep);
    case Close(c) => CloseKeeps(w, c);
    case DrainOne(c, keep) => DrainKeeps(w, c, keep);
  }

  lemma {:induction false} RunInv(worlds: seq<World>, events: seq<Event>, k: nat)
    requires IsRun(worlds, events) && k <= |events|
    ensures Inv(worlds[k])
  {
    hide Step;
    if k == 0 {
      var cs :| worlds[0] == Start(cs);
    } else {
      RunInv(worlds, events, k - 1);
      StepKeeps(worlds[k - 1], events[k - 1]);
    }
  }

  // ------------------------------------------------------------------- theorems

  /** The bytes waiting in the queue. */
  function Queued(heap: map<nat, seq<Byte>>, queue: seq<nat>): seq<Byte> {
    if queue == [] then [] else (if queue[0] in heap then heap[queue[0]] else []) + Queued(heap, queue[1..])
  }

  lemma {:induction false} QueuedIsFrames(heap: map<nat, seq<Byte>>, queue: seq<nat>, frames: seq<seq<Byte>>)
    requires |queue| == |frames|
    requires forall i :: 0 <= i < |queue| ==> queue[i] in heap && heap[queue[i]] == frames[i]
    ensures Queued(heap, queue) == Concat(frames)
  {
    if queue != [] {
      QueuedIsFrames(heap, queue[1..], frames[1..]);
    }
  }

  /** In every run, on every open connection, the bytes read, the rest of the current buffer and
      the queued buffers are together exactly the accepted plaintexts in order, whatever the other
      connections do with the shared pool. */
  lemma ByteStreamFidelity(worlds: seq<World>, events: seq<Event>, c: nat)
    requires IsRun(worlds, events) && c in worlds[|events|].conns && !worlds[|events|].conns[c].closed
    ensures var w := worlds[|events|];
            var conn := w.conns[c];
            conn.out + Leftover(w.heap, conn) + Queued(w.heap, conn.queue) == Concat(conn.frames)
  {
    hide Step, Enabled, Leftover;
    var w := worlds[|events|];
    var conn := w.conns[c];
    RunInv(worlds, events, |events|);
    var rest := conn.frames[conn.base..];
    forall i | 0 <= i < |conn.queue| ensures conn.queue[i] in w.heap && w.heap[conn.queue[i]] == rest[i] {
      assert Owned(w.owner, conn.queue[i], Queue(c, conn.base + i));
    }
    QueuedIsFrames(w.heap, conn.queue, rest);
    ConcatAppend(conn.frames[..conn.base], rest);
    assert conn.frames[..conn.base] + rest == conn.frames;
  }

  /** The places a buffer can be found in. */
  datatype Spot = InPool | InPush(c: nat) | InQueue(c: nat, i: nat) | InRead(c: nat)

  ghost predicate At(w: World, b: nat, spot: Spot) {
    match spot
    case InPool => b in w.pool
    case InPush(c) => c in w.conns && w.conns[c].flying == Some(b)
    case InQueue(c, i) => c in w.conns && i < |w.conns[c].queue| && w.conns[c].queue[i] == b
    case InRead(c) => c in w.conns && w.conns[c].left.Some? && w.conns[c].left.value.0 == b
  }

  /** In every run, closes included, no buffer is in two places, on one connection or across
      connections, and none is in the pool twice; a queue never exceeds its capacity. */
  lemma NoBufferShared(worlds: seq<World>, events: seq<Event>, b: nat, x: Spot, y: Spot)
    requires IsRun(worlds, events) && At(worlds[|events|], b, x) && At(worlds[|events|], b, y)
    ensures x == y && worlds[|events|].pool[b] <= 1
    ensures x.InQueue? ==> |worlds[|events|].conns[x.c].queue| <= INBOUND_QUEUE
  {
    hide Step, Enabled, Leftover, Concat;
    var w := worlds[|events|];
    RunInv(worlds, events, |events|);
    SpotOwner(w, b, x);
    SpotOwner(w, b, y);
  }

  lemma SpotOwner(w: World, b: nat, spot: Spot)
    requires Inv(w) && At(w, b, spot)
    ensures b in w.owner
    ensures match spot
            case InPool => w.owner[b] == Pool
            case InPush(c) => w.owner[b] == Pusher(c)
            case InQueue(c, i) => w.owner[b] == Queue(c, w.conns[c].base + i)
            case InRead(c) => w.owner[b] == Reader(c)
  {
    if spot.InQueue? {
      assert ConnOk(w.heap, w.owner, spot.c, w.conns[spot.c]);
    }
  }
}
