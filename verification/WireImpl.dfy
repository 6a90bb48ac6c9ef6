/** The writer pump and the receive path as they run. */
module WireImpl {
  import opened Bytes
  import opened EpochHeader
  import opened WirePath

  /** The packets a payload is split into, scanning it once. */
  method SplitKcpPayload(payload: seq<Byte>) returns (packets: seq<seq<Byte>>)
    ensures packets == Split(payload)
  {
    if |payload| < |BATCH_MAGIC| || payload[..|BATCH_MAGIC|] != BATCH_MAGIC {
      return [payload];
    }
    hide FromBe16;
    packets := [];
    var rest := payload[|BATCH_MAGIC|..];
    while |rest| > 0
      invariant packets + SplitBatch(rest) == Split(payload)
      decreases |rest|
    {
      if |rest| < 2 {
        return packets;
      }
      ghost var before := rest;
      var size := FromBe16(rest[..2]);
      rest := rest[2..];
      if size == 0 || |rest| < size {
        return packets;
      }
      SplitStep(before, size, packets);
      packets := packets + [rest[..size]];
      rest := rest[size..];
    }
  }

  lemma SplitStep(s: seq<Byte>, size: nat, packets: seq<seq<Byte>>)
    requires |s| >= 2 && size == FromBe16(s[..2]) && 0 < size <= |s| - 2
    ensures packets + SplitBatch(s) == (packets + [s[2..][..size]]) + SplitBatch(s[2..][size..])
  {
    assert s[2..][..size] == s[2..2 + size] && s[2..][size..] == s[2 + size..];
  }

  class Writer {
    const c: Config
    var out: seq<seq<Byte>>
    var pending: Option<seq<Byte>>
    var samples: seq<seq<Byte>>

    ghost function View(): Pump
      reads this
    {
      Pump(out, pending, samples)
    }

    constructor (c: Config)
      ensures View() == Pump([], None, []) && this.c == c
    {
      this.c := c;
      out, pending, samples := [], None, [];
    }

    /** Queues one KCP packet behind its header, with its checksum. */
    method WriteTo(p: seq<Byte>)
      modifies this
      ensures View() == Apply(c, old(View()), Write(p))
    {
      out := out + [c.Hdr() + (p + Be32(c.crc(p)))];
    }

    /** Coalesces up to batchSize queued frames into one sample; a frame that would overflow it is
        handed back instead of being dropped, and a frame that cannot be batched is sent as it is. */
    method BatchSampleFrom(first: seq<Byte>) returns (sample: seq<Byte>, carry: Option<seq<Byte>>)
      modifies this`out
      ensures (sample, carry, out) == BatchFrom(c, old(out), first)
    {
      if !CanBatch(c, first) {
        return first, None;
      }
      sample := first[..HDR_LEN] + BATCH_MAGIC;
      sample := AppendPacket(sample, first[HDR_LEN..]);
      ghost var start := sample;
      var packets := 1;
      while packets < c.batchSize
        invariant Fill(c, sample, out, packets) == Fill(c, start, old(out), 1)
        decreases c.batchSize - packets
      {
        if out == [] {
          return sample, None;
        }
        var frame := out[0];
        out := out[1..];
        if |frame| > HDR_LEN {
          var payload := frame[HDR_LEN..];
          if |sample| + 2 + |payload| > MAX_SAMPLE {
            return sample, Some(frame);
          }
          sample := AppendPacket(sample, payload);
        }
        packets := packets + 1;
      }
      return sample, None;
    }

    /** One tick of the pump. */
    method OnTick(keyframe: Option<seq<Byte>>)
      modifies this
      ensures View() == Tick(c, old(View()), keyframe)
    {
      if keyframe.Some? {
        samples := samples + [keyframe.value];
      }
      var frame := pending;
      pending := None;
      if frame.None? && out != [] {
        frame := Some(out[0]);
        out := out[1..];
      }
      if frame.None? {
        return;
      }
      if !CanBatch(c, frame.value) {
        samples := samples + [frame.value];
        return;
      }
      var sample, carry := BatchSampleFrom(frame.value);
      pending := carry;
      samples := samples + [sample];
    }
  }
}
