/** Per-fragment acknowledgement state of the messages in flight. */
module AckTracking {
  import opened Bytes

  /** What an ack waiter holds, as a value. */
  datatype Waiter = Waiter(crc: U32, acked: seq<bool>, remaining: int)

  function CountUnacked(acked: seq<bool>): nat {
    if acked == [] then 0 else (if acked[0] then 0 else 1) + CountUnacked(acked[1..])
  }

  predicate Consistent(w: Waiter) {
    w.remaining == CountUnacked(w.acked)
  }

  function Fresh(crc: U32, total: nat): Waiter {
    Waiter(crc, seq(total, _ => false), total)
  }

  predicate Flips(w: Waiter, crc: U32, idx: int) {
    w.crc == crc && 0 <= idx < |w.acked| && !w.acked[idx]
  }

  function Marked(w: Waiter, crc: U32, idx: int): Waiter {
    if Flips(w, crc, idx) then w.(acked := w.acked[idx := true], remaining := w.remaining - 1) else w
  }

  lemma {:induction false} CountUnackedFresh(n: nat)
    ensures CountUnacked(seq(n, _ => false)) == n
  {
    if n > 0 {
      CountUnackedFresh(n - 1);
      assert seq(n, _ => false)[1..] == seq(n - 1, _ => false);
    }
  }

  lemma {:induction false} CountUnackedUpdate(acked: seq<bool>, i: nat)
    requires i < |acked| && !acked[i]
    ensures CountUnacked(acked[i := true]) == CountUnacked(acked) - 1
  {
    if i > 0 {
      assert acked[i := true][1..] == acked[1..][i - 1 := true];
      CountUnackedUpdate(acked[1..], i - 1);
    } else {
      assert acked[i := true][1..] == acked[1..];
    }
  }

  lemma {:induction false} CountUnackedSnoc(acked: seq<bool>, i: nat)
    requires i < |acked|
    ensures CountUnacked(acked[..i + 1]) == CountUnacked(acked[..i]) + (if acked[i] then 0 else 1)
  {
    if i > 0 {
      CountUnackedSnoc(acked[1..], i - 1);
      assert acked[..i + 1][1..] == acked[1..][..i];
      assert acked[..i][1..] == acked[1..][..i - 1];
    } else {
      assert acked[..1][1..] == acked[..0];
    }
  }

  /** A consistent waiter reports done exactly when every fragment is acknowledged. */
  lemma {:induction false} DoneMeansAllAcked(acked: seq<bool>)
    ensures CountUnacked(acked) == 0 <==> forall i :: 0 <= i < |acked| ==> acked[i]
  {
    if acked != [] {
      DoneMeansAllAcked(acked[1..]);
      assert forall i :: 0 < i < |acked| ==> acked[i] == acked[1..][i - 1];
    }
  }

  /** Mark keeps the remaining count exact and never takes an acknowledgement back. */
  lemma MarkedKeepsConsistent(w: Waiter, crc: U32, idx: int)
    requires Consistent(w)
    ensures Consistent(Marked(w, crc, idx)) && |Marked(w, crc, idx).acked| == |w.acked|
    ensures forall i :: 0 <= i < |w.acked| ==>
              (Marked(w, crc, idx).acked[i] <==> w.acked[i] || (w.crc == crc && i == idx))
  {
    if Flips(w, crc, idx) {
      CountUnackedUpdate(w.acked, idx);
    }
  }

  class AckWaiter {
    const crc: U32
    const total: nat
    const acked: array<bool>
    var remaining: int

    ghost predicate Valid()
      reads this, acked
    {
      acked.Length == total && Consistent(View())
    }

    ghost function View(): Waiter
      reads this, acked
    {
      Waiter(crc, acked[..], remaining)
    }

    constructor (crc: U32, total: nat)
      ensures Valid() && View() == Fresh(crc, total)
      ensures fresh(acked)
    {
      this.crc := crc;
      this.total := total;
      acked := new bool[total](_ => false);
      remaining := total;
      new;
      assert acked[..] == seq(total, _ => false);
      CountUnackedFresh(total);
    }

    method Mark(crc: U32, fragIdx: int) returns (flipped: bool)
      requires Valid()
      modifies this, acked
      ensures Valid()
      ensures View() == Marked(old(View()), crc, fragIdx)
      ensures flipped == Flips(old(View()), crc, fragIdx)
    {
      if this.crc != crc || fragIdx < 0 || fragIdx >= total || acked[fragIdx] {
        return false;
      }
      CountUnackedUpdate(acked[..], fragIdx);
      acked[fragIdx] := true;
      remaining := remaining - 1;
      assert acked[..] == old(acked[..])[fragIdx := true];
      return true;
    }

    /** The unacknowledged indices, ascending. */
    method Pending() returns (out: seq<nat>)
      requires Valid()
      ensures |out| == remaining
      ensures forall i :: i in out <==> 0 <= i < total && !acked[i]
      ensures forall i, j :: 0 <= i < j < |out| ==> out[i] < out[j]
    {
      out := [];
      for i := 0 to total
        invariant forall k :: k in out <==> 0 <= k < i && !acked[k]
        invariant forall k, j :: 0 <= k < j < |out| ==> out[k] < out[j]
        invariant |out| == CountUnacked(acked[..i])
      {
        CountUnackedSnoc(acked[..], i);
        assert acked[..][..i + 1] == acked[..i + 1] && acked[..][..i] == acked[..i];
        if !acked[i] {
          assert forall k :: 0 <= k < |out| ==> out[k] in out;
          out := out + [i];
        }
      }
      assert acked[..total] == acked[..];
    }

    predicate Done()
      reads this
    {
      remaining == 0
    }
  }

  class AckTracker {
    var pending: map<U32, AckWaiter>

    ghost predicate Valid()
      reads this, pending.Values, set w | w in pending.Values :: w.acked
    {
      && (forall s :: s in pending ==> pending[s].Valid())
      && (forall s, t :: s in pending && t in pending && s != t ==>
            pending[s] != pending[t] && pending[s].acked != pending[t].acked)
    }

    constructor ()
      ensures Valid() && pending == map[]
    {
      pending := map[];
    }

    method Register(seqNo: U32, crc: U32, total: nat) returns (w: AckWaiter)
      requires Valid()
      modifies this
      ensures Valid() && fresh(w) && fresh(w.acked) && w.View() == Fresh(crc, total)
      ensures pending == old(pending)[seqNo := w]
    {
      w := new AckWaiter(crc, total);
      pending := pending[seqNo := w];
    }

    method Unregister(seqNo: U32)
      requires Valid()
      modifies this
      ensures Valid() && pending == old(pending) - {seqNo}
    {
      pending := pending - {seqNo};
    }

    /** An ack reaches only the waiter of its sequence number. */
    method Mark(seqNo: U32, crc: U32, fragIdx: int) returns (flipped: bool)
      requires Valid()
      modifies pending.Values, set w | w in pending.Values :: w.acked
      ensures Valid() && pending == old(pending)
      ensures flipped == (seqNo in pending && Flips(old(pending[seqNo].View()), crc, fragIdx))
      ensures forall s :: s in pending ==>
                pending[s].View()
                == if s == seqNo then Marked(old(pending[s].View()), crc, fragIdx) else old(pending[s].View())
    {
      if seqNo !in pending {
        return false;
      }
      flipped := pending[seqNo].Mark(crc, fragIdx);
    }
  }
}
