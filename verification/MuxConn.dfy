/** The inbound half of a multiplexed connection: plaintext frames go in through Push, a byte
    stream comes out of Read, and the buffers in between are recycled through a pool. */
module MuxConn {
  import opened Bytes
  import PooledStreams

  const POOLED_FRAME_CAP := 64 * 1024

  class Buf {
    var data: seq<Byte>
    var cap: nat

    constructor ()
      ensures data == [] && cap == POOLED_FRAME_CAP
    {
      data, cap := [], POOLED_FRAME_CAP;
    }
  }

  predicate Distinct(q: seq<Buf>) {
    forall i, j :: 0 <= i < j < |q| ==> q[i] != q[j]
  }

  class FramePool {
    var free: seq<Buf>

    constructor ()
      ensures free == []
    {
      free := [];
    }

    /** A buffer nobody else holds, emptied. */
    method Acquire() returns (b: Buf)
      requires Distinct(free)
      modifies this, free
      ensures b.data == [] && Distinct(free) && b !in free
      ensures b in old(free) || fresh(b)
      ensures forall x :: x in free ==> x in old(free)
      ensures forall x :: x in old(free) && x != b ==> x in free && x.data == old(x.data) && x.cap == old(x.cap)
    {
      if free == [] {
        b := new Buf();
      } else {
        b := free[|free| - 1];
        free := free[..|free| - 1];
        b.data := [];
      }
    }

    /** Keeps the buffer unless one huge frame has grown it past twice the usual capacity. */
    method Release(b: Buf)
      requires Distinct(free) && b !in free
      modifies this, b
      ensures Distinct(free) && b.cap == old(b.cap)
      ensures free == if b.cap > 2 * POOLED_FRAME_CAP then old(free) else old(free) + [b]
      ensures b.data == if b.cap > 2 * POOLED_FRAME_CAP then old(b.data) else []
    {
      if b.cap > 2 * POOLED_FRAME_CAP {
        return;
      }
      b.data := [];
      free := free + [b];
    }
  }

  /** Copies as much of `src` as fits into `p` from `at` on. */
  method CopyInto(p: array<Byte>, at: nat, src: seq<Byte>) returns (m: nat)
    requires at <= p.Length
    modifies p
    ensures m == Min(p.Length - at, |src|)
    ensures p[..at] == old(p[..at]) && p[at..at + m] == src[..m] && p[at + m..] == old(p[at + m..])
  {
    m := 0;
    while m < |src| && at + m < p.Length
      invariant m <= |src| && at + m <= p.Length
      invariant p[..at] == old(p[..at]) && p[at..at + m] == src[..m]
      invariant forall k :: at + m <= k < p.Length ==> p[k] == old(p[k])
    {
      p[at + m] := src[m];
      m := m + 1;
    }
  }

  /** The bytes waiting in a list of buffers. */
  ghost function Waiting(q: seq<Buf>): seq<Byte>
    reads q
  {
    if q == [] then [] else q[0].data + Waiting(q[1..])
  }

  lemma {:induction false} WaitingSnoc(q: seq<Buf>, b: Buf)
    ensures Waiting(q + [b]) == Waiting(q) + b.data
  {
    if q == [] {
      assert q + [b] == [b];
      assert Waiting([b]) == b.data + Waiting([]);
    } else {
      assert (q + [b])[1..] == q[1..] + [b];
      WaitingSnoc(q[1..], b);
    }
  }

  twostate lemma {:induction false} WaitingSame(q: seq<Buf>)
    requires forall b :: b in q ==> b.data == old(b.data)
    ensures Waiting(q) == old(Waiting(q))
  {
    if q != [] {
      WaitingSame(q[1..]);
    }
  }

  lemma Regroup(done: seq<Byte>, was: seq<Byte>, m: nat, rest: seq<Byte>)
    requires m <= |was|
    ensures done + was[..m] + (was[m..] + rest) == done + (was + rest)
  {
    assert was == was[..m] + was[m..];
  }

  class Conn {
    const pool: FramePool
    var queue: seq<Buf>
    var leftoverBuf: Buf?
    var offset: nat
    var closed: bool

    ghost function Held(): set<Buf>
      reads this
    {
      (set b | b in queue) + (if leftoverBuf == null then {} else {leftoverBuf})
    }

    /** No buffer is held twice or held while it is in the pool; a current buffer has unread bytes. */
    ghost predicate Valid()
      reads this, pool, leftoverBuf
    {
      && |queue| <= PooledStreams.INBOUND_QUEUE
      && Distinct(queue) && Distinct(pool.free)
      && (forall b :: b in queue ==> b !in pool.free)
      && (leftoverBuf != null ==>
            leftoverBuf !in queue && leftoverBuf !in pool.free && offset < |leftoverBuf.data|)
    }

    ghost function Leftover(): seq<Byte>
      reads this, leftoverBuf
    {
      if leftoverBuf != null && offset <= |leftoverBuf.data| then leftoverBuf.data[offset..] else []
    }

    /** The bytes accepted and not yet read. */
    ghost function Content(): seq<Byte>
      reads this, leftoverBuf, queue
    {
      Leftover() + Waiting(queue)
    }

    constructor (pool: FramePool)
      requires Distinct(pool.free)
      ensures Valid() && this.pool == pool && Content() == [] && queue == [] && !closed
    {
      this.pool := pool;
      queue, leftoverBuf, offset, closed := [], null, 0, false;
    }

    /** `frame` is what decryption gave. A frame is accepted whole, at the end of the stream, or
        leaves the stream alone. */
    method Push(frame: Option<seq<Byte>>)
      requires Valid() && (closed || |queue| < PooledStreams.INBOUND_QUEUE)
      modifies this`queue, pool, pool.free
      ensures Valid()
      ensures Content() == old(Content()) + (if frame.Some? && !closed then frame.value else [])
      ensures forall b :: b in Held() ==> b in old(Held()) || b in old(pool.free) || fresh(b)
      ensures forall b :: b in pool.free ==> b in old(pool.free) || fresh(b)
    {
      hide Conn.Content, Conn.Valid;
      var b := Borrow();
      if frame == None {
        GiveBack(b);
      } else {
        Fill(b, frame.value);
        if closed {
          GiveBack(b);
        } else {
          Enqueue(b);
        }
      }
    }

    method Borrow() returns (b: Buf)
      requires Valid()
      modifies pool, pool.free
      ensures Valid() && Content() == old(Content()) && b !in Held() && b !in pool.free
      ensures b in old(pool.free) || fresh(b)
      ensures forall x :: x in pool.free ==> x in old(pool.free)
    {
      b := pool.Acquire();
      WaitingSame(queue);
    }

    method GiveBack(b: Buf)
      requires Valid() && b !in Held() && b !in pool.free
      modifies pool, b
      ensures Valid() && Content() == old(Content())
      ensures forall x :: x in pool.free ==> x in old(pool.free) || x == b
    {
      pool.Release(b);
      WaitingSame(queue);
    }

    /** Decryption appends to an empty buffer, which grows when it has to. */
    method Fill(b: Buf, plaintext: seq<Byte>)
      requires Valid() && b !in Held()
      modifies b
      ensures Valid() && Content() == old(Content()) && b.data == plaintext
    {
      b.data, b.cap := plaintext, Max(b.cap, |plaintext|);
      WaitingSame(queue);
    }

    method Enqueue(b: Buf)
      requires Valid() && |queue| < PooledStreams.INBOUND_QUEUE && b !in Held() && b !in pool.free
      modifies this`queue
      ensures Valid() && queue == old(queue) + [b] && Content() == old(Content()) + b.data
    {
      WaitingSnoc(queue, b);
      queue := queue + [b];
    }

    method TakeFrame() returns (b: Buf?)
      modifies this`queue
      ensures b == null <==> old(queue) == []
      ensures b != null ==> b == old(queue)[0] && queue == old(queue)[1..]
      ensures b == null ==> queue == old(queue)
    {
      if queue == [] {
        return null;
      }
      b := queue[0];
      queue := queue[1..];
    }

    /** Valid, except that the current buffer may have been read to its end. */
    ghost predicate Reading()
      reads this, pool, leftoverBuf
    {
      && |queue| <= PooledStreams.INBOUND_QUEUE
      && Distinct(queue) && Distinct(pool.free)
      && (forall b :: b in queue ==> b !in pool.free)
      && (leftoverBuf != null ==>
            leftoverBuf !in queue && leftoverBuf !in pool.free && offset <= |leftoverBuf.data|)
    }

    method RecycleIfDrained()
      requires Reading()
      modifies this`leftoverBuf, pool, leftoverBuf
      ensures Valid() && Content() == old(Content())
      ensures leftoverBuf == null || leftoverBuf == old(leftoverBuf)
      ensures leftoverBuf == null <==> old(Leftover() == [])
      ensures forall b :: b in pool.free ==> b in old(pool.free) || b in old(Held())
    {
      if leftoverBuf != null && offset == |leftoverBuf.data| {
        pool.Release(leftoverBuf);
        leftoverBuf := null;
        WaitingSame(queue);
      }
    }

    /** Makes the head of the queue the current buffer; the stream stays what it is. */
    method NextFrame()
      requires Valid() && leftoverBuf == null && queue != []
      modifies this`queue, this`leftoverBuf, this`offset
      ensures Reading() && leftoverBuf == old(queue)[0] && offset == 0 && queue == old(queue)[1..]
      ensures Content() == old(Content()) && Held() == old(Held())
    {
      var b := TakeFrame();
      leftoverBuf, offset := b, 0;
      assert b.data[0..] == b.data;
      assert old(queue) == [b] + queue;
    }

    /** Copies from the current buffer into `p` from `at` on. */
    method CopyOut(p: array<Byte>, at: nat) returns (n: nat)
      requires Reading() && leftoverBuf != null && at <= p.Length
      modifies this`leftoverBuf, this`offset, pool, leftoverBuf, p
      ensures Valid() && at <= n <= p.Length && p[..n] + Content() == old(p[..at] + Content())
      ensures forall k :: n <= k < p.Length ==> p[k] == old(p[k])
      ensures leftoverBuf == null || (leftoverBuf == old(leftoverBuf) && n == p.Length)
      ensures forall b :: b in pool.free ==> b in old(pool.free) || b in old(Held())
    {
      ghost var was, waiting, done := Leftover(), Waiting(queue), p[..at];
      var m := CopyInto(p, at, leftoverBuf.data[offset..]);
      n := at + m;
      assert p[..n] == done + was[..m];
      offset := offset + m;
      assert Leftover() == was[m..] && Waiting(queue) == waiting;
      Regroup(done, was, m, waiting);
      RecycleIfDrained();
    }

    lemma NothingLeft()
      requires leftoverBuf == null && queue == []
      ensures Content() == []
    {
    }

    /** Fills `p` with as many unread bytes as there are: at least one as soon as any is there.
        Reports the end exactly when the connection holds no frame. An empty `p` asks for nothing. */
    method Read(p: array<Byte>) returns (n: nat, end: bool)
      requires Valid()
      requires p.Length > 0 && leftoverBuf == null && queue == [] ==> closed
      modifies this`queue, this`leftoverBuf, this`offset, pool, Held(), p
      ensures Valid() && Held() <= old(Held())
      ensures end <==> p.Length > 0 && old(leftoverBuf == null && queue == [])
      ensures n == Min(p.Length, |old(Content())|)
      ensures p[..n] + Content() == old(Content())
      ensures forall k :: n <= k < p.Length ==> p[k] == old(p[k])
      ensures forall b :: b in pool.free ==> b in old(pool.free) || b in old(Held())
    {
      hide Conn.Content;
      n, end := 0, false;
      assert p[..0] == [];
      if p.Length == 0 {
        return;
      }
      if leftoverBuf == null {
        if queue == [] {
          NothingLeft();
          return 0, true;
        }
        NextFrame();
      }
      n := CopyOut(p, 0);
      n := DrainReady(p, n);
    }

    /** Pulls in the frames that are already queued while `p` has room. */
    method DrainReady(p: array<Byte>, at: nat) returns (n: nat)
      requires Valid() && at <= p.Length && (leftoverBuf != null ==> at == p.Length)
      modifies this`queue, this`leftoverBuf, this`offset, pool, Held(), p
      ensures Valid() && Held() <= old(Held())
      ensures at <= n <= p.Length && (n < p.Length ==> Content() == [])
      ensures p[..n] + Content() == old(p[..at] + Content())
      ensures forall k :: n <= k < p.Length ==> p[k] == old(p[k])
      ensures forall b :: b in pool.free ==> b in old(pool.free) || b in old(Held())
    {
      hide Conn.Content;
      n := at;
      while n < p.Length && leftoverBuf == null && queue != []
        invariant at <= n <= p.Length && Valid() && Held() <= old(Held())
        invariant leftoverBuf != null ==> n == p.Length
        invariant p[..n] + Content() == old(p[..at] + Content())
        invariant forall k :: n <= k < p.Length ==> p[k] == old(p[k])
        invariant forall b :: b in pool.free ==> b in old(pool.free) || b in old(Held())
        decreases |queue|
      {
        NextFrame();
        n := CopyOut(p, n);
      }
      if n < p.Length {
        NothingLeft();
      }
    }

    /** Later calls change nothing. The first one gives every queued buffer back; what is left of
        the current one can still be read. */
    method Close()
      requires Valid()
      modifies this`closed, this`queue, pool, queue
      ensures Valid() && closed && leftoverBuf == old(leftoverBuf) && Leftover() == old(Leftover())
      ensures old(closed) ==> Content() == old(Content()) && queue == old(queue)
      ensures !old(closed) ==> queue == [] && Content() == old(Leftover())
    {
      if closed {
        return;
      }
      closed := true;
      while queue != []
        invariant Valid() && closed && leftoverBuf == old(leftoverBuf) && Leftover() == old(Leftover())
        invariant forall b :: b in queue ==> b in old(queue)
        invariant forall b :: b in pool.free ==> b in old(pool.free) || b in old(queue)
        decreases |queue|
      {
        assert queue[0] in queue;
        var b := TakeFrame();
        pool.Release(b);
      }
    }
  }
}
