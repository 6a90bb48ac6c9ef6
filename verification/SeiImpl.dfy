/** The SEI codec as it runs: loops that append to a buffer or scan it. */
module SeiImpl {
  import opened Bytes
  import opened SeiCodec

  method AppendEscapedByte(dst: seq<Byte>, value: Byte, zeroCount: nat) returns (out: seq<Byte>, zeros: nat)
    ensures out == dst + EscapedByte(zeroCount, value)
    ensures zeros == ZerosAfterByte(zeroCount, value)
  {
    out, zeros := dst, zeroCount;
    if zeros >= 2 && value <= 0x03 {
      out := out + [0x03];
      zeros := 0;
    }
    out := out + [value];
    if value == 0 {
      zeros := zeros + 1;
    } else {
      zeros := 0;
    }
  }

  method AppendEscapedBytes(dst: seq<Byte>, src: seq<Byte>, zeroCount: nat) returns (out: seq<Byte>, zeros: nat)
    ensures out == dst + EscapeFrom(zeroCount, src)
    ensures zeros == ZerosAfter(zeroCount, src)
  {
    hide EscapedByte, ZerosAfterByte;
    out, zeros := dst, zeroCount;
    for i := 0 to |src|
      invariant out == dst + EscapeFrom(zeroCount, src[..i])
      invariant zeros == ZerosAfter(zeroCount, src[..i])
    {
      EscapeSnoc(zeroCount, src[..i], src[i]);
      assert src[..i + 1] == src[..i] + [src[i]];
      out, zeros := AppendEscapedByte(out, src[i], zeros);
    }
    assert src[..|src|] == src;
  }

  method AppendEscapedSeiValue(dst: seq<Byte>, v: nat, zeroCount: nat) returns (out: seq<Byte>, zeros: nat)
    ensures out == dst + EscapeFrom(zeroCount, SeiValue(v))
    ensures zeros == ZerosAfter(zeroCount, SeiValue(v))
  {
    hide EscapedByte, ZerosAfterByte;
    out, zeros := dst, zeroCount;
    var value := v;
    while value >= 0xff
      invariant out + EscapeFrom(zeros, SeiValue(value)) == dst + EscapeFrom(zeroCount, SeiValue(v))
      invariant ZerosAfter(zeros, SeiValue(value)) == ZerosAfter(zeroCount, SeiValue(v))
    {
      assert SeiValue(value)[1..] == SeiValue(value - 0xff);
      out, zeros := AppendEscapedByte(out, 0xff, zeros);
      value := value - 0xff;
    }
    var z := zeros;
    assert SeiValue(value) == [value] && SeiValue(value)[1..] == [];
    assert EscapeFrom(z, [value]) == EscapedByte(z, value) + EscapeFrom(ZerosAfterByte(z, value), []);
    out, zeros := AppendEscapedByte(out, value, zeros);
  }

  /** Streaming the pieces through one zero counter gives what escaping the whole message gives. */
  method AppendEscapedSeiRbsp(dst: seq<Byte>, payload: seq<Byte>) returns (out: seq<Byte>)
    ensures out == dst + Escape(Rbsp(payload))
  {
    hide EscapeFrom, ZerosAfter, SeiValue, EscapedByte, ZerosAfterByte;
    var zeros: nat := 0;
    var a, b := SeiValue(5), SeiValue(|UUID| + |payload|);
    EscapeAppend(0, a, b);
    EscapeAppend(0, a + b, UUID);
    EscapeAppend(0, a + b + UUID, payload);
    EscapeSnoc(0, a + b + UUID + payload, STOP);
    out, zeros := AppendEscapedSeiValue(dst, 5, zeros);
    out, zeros := AppendEscapedSeiValue(out, |UUID| + |payload|, zeros);
    out, zeros := AppendEscapedBytes(out, UUID, zeros);
    out, zeros := AppendEscapedBytes(out, payload, zeros);
    out, zeros := AppendEscapedByte(out, STOP, zeros);
  }

  method EscapeRbsp(rbsp: seq<Byte>) returns (out: seq<Byte>)
    ensures out == Escape(rbsp)
  {
    out := [];
    var zeroCount: nat := 0;
    for i := 0 to |rbsp|
      invariant out == Escape(rbsp[..i]) && zeroCount == ZerosAfter(0, rbsp[..i])
    {
      EscapeSnoc(0, rbsp[..i], rbsp[i]);
      assert rbsp[..i + 1] == rbsp[..i] + [rbsp[i]];
      var b := rbsp[i];
      if zeroCount >= 2 && b <= 0x03 {
        out := out + [0x03];
        zeroCount := 0;
      }
      out := out + [b];
      if b == 0x00 {
        zeroCount := zeroCount + 1;
      } else {
        zeroCount := 0;
      }
    }
    assert rbsp[..|rbsp|] == rbsp;
  }

  /** Raw zero bytes at the end of `s`, after `zeros` before it. */
  ghost function RawZeros(zeros: nat, s: seq<Byte>): nat
    decreases |s|
  {
    if s == [] then zeros else RawZeros(Zeros(zeros, s[0]), s[1..])
  }

  lemma {:induction false} UnescapeSnoc(zeros: nat, a: seq<Byte>, b: Byte)
    ensures UnescapeFrom(zeros, a + [b])
         == UnescapeFrom(zeros, a) + (if RawZeros(zeros, a) >= 2 && b == 3 then [] else [b])
    ensures RawZeros(zeros, a + [b]) == Zeros(RawZeros(zeros, a), b)
    decreases |a|
  {
    if a == [] {
      assert a + [b] == [b] && [b][1..] == [];
    } else {
      assert (a + [b])[1..] == a[1..] + [b];
      UnescapeSnoc(Zeros(zeros, a[0]), a[1..], b);
    }
  }

  method UnescapeRbsp(rbsp: seq<Byte>) returns (out: seq<Byte>)
    ensures out == Unescape(rbsp)
  {
    out := [];
    for i := 0 to |rbsp|
      invariant out == Unescape(rbsp[..i])
      invariant RawZeros(0, rbsp[..i]) >= 1 <==> i >= 1 && rbsp[i - 1] == 0
      invariant RawZeros(0, rbsp[..i]) >= 2 <==> i >= 2 && rbsp[i - 1] == 0 && rbsp[i - 2] == 0
    {
      UnescapeSnoc(0, rbsp[..i], rbsp[i]);
      assert rbsp[..i + 1] == rbsp[..i] + [rbsp[i]];
      var b := rbsp[i];
      if i >= 2 && b == 0x03 && rbsp[i - 1] == 0x00 && rbsp[i - 2] == 0x00 {
        continue;
      }
      out := out + [b];
    }
    assert rbsp[..|rbsp|] == rbsp;
  }

  method ConsumeSeiValue(data: seq<Byte>, start: nat) returns (r: Option<(nat, nat)>)
    ensures r == Consume(data, start)
  {
    var value: nat, pos: nat := 0, start;
    while true
      invariant ConsumeFrom(data, pos, value) == Consume(data, start)
      decreases |data| - pos
    {
      if pos >= |data| {
        return None;
      }
      var b := data[pos];
      pos := pos + 1;
      value := value + b;
      if b != 0xff {
        return Some((value, pos));
      }
    }
  }

  lemma PayloadsStep(data: seq<Byte>, pos: nat, out: seq<seq<Byte>>, all: Option<seq<seq<Byte>>>)
    requires pos < |data| && !(data[pos] == STOP && pos == |data| - 1)
    requires Joined(out, PayloadsFrom(data, pos)) == all
    ensures MessageAt(data, pos).None? ==> all.None?
    ensures MessageAt(data, pos).Some? ==>
              var (typ, payload, next) := MessageAt(data, pos).value;
              pos < next <= |data| && Joined(out + Carried(typ, payload), PayloadsFrom(data, next)) == all
  {
    if MessageAt(data, pos).Some? {
      MessageAdvances(data, pos);
      var (typ, payload, next) := MessageAt(data, pos).value;
      var rest := PayloadsFrom(data, next);
      if rest.Some? {
        assert out + (Carried(typ, payload) + rest.value) == (out + Carried(typ, payload)) + rest.value;
      }
    }
  }

  ghost function Joined(out: seq<seq<Byte>>, rest: Option<seq<seq<Byte>>>): Option<seq<seq<Byte>>> {
    if rest.Some? then Some(out + rest.value) else None
  }

  lemma JoinedNone(rest: Option<seq<seq<Byte>>>)
    ensures Joined([], rest) == rest
  {
    if rest.Some? {
      assert [] + rest.value == rest.value;
    }
  }

  lemma JoinedEnd(out: seq<seq<Byte>>)
    ensures Joined(out, Some([])) == Some(out)
  {
    assert out + [] == out;
  }

  method ExtractTransportSei(rbsp: seq<Byte>) returns (r: Option<seq<seq<Byte>>>)
    ensures r == ExtractSei(rbsp)
  {
    hide Unescape, Consume, Joined;
    var data := UnescapeRbsp(rbsp);
    var out: seq<seq<Byte>> := [];
    var pos: nat := 0;
    JoinedNone(PayloadsFrom(data, 0));
    while pos < |data|
      invariant pos <= |data|
      invariant Joined(out, PayloadsFrom(data, pos)) == ExtractSei(rbsp)
      decreases |data| - pos
    {
      if data[pos] == STOP && pos == |data| - 1 {
        break;
      }
      PayloadsStep(data, pos, out, ExtractSei(rbsp));
      var t := ConsumeSeiValue(data, pos);
      if t.None? {
        return None;
      }
      var s := ConsumeSeiValue(data, t.value.1);
      if s.None? {
        return None;
      }
      pos := s.value.1;
      var payloadSize := s.value.0;
      if pos + payloadSize > |data| {
        return None;
      }
      var payload := data[pos..pos + payloadSize];
      pos := pos + payloadSize;
      if t.value.0 != 5 || |payload| < |UUID| {
        assert out + [] == out;
        continue;
      }
      if payload[..|UUID|] != UUID {
        assert out + [] == out;
        continue;
      }
      out := out + [payload[|UUID|..]];
    }
    JoinedEnd(out);
    return Some(out);
  }

  method FindStartCode(data: seq<Byte>, start: nat) returns (at: int, length: nat)
    ensures at < 0 <==> NextStart(data, start) == None
    ensures at >= 0 ==> NextStart(data, start) == Some(at) && length == StartAt(data, at)
  {
    var i := start;
    while i + 2 < |data|
      invariant start <= i && NextStart(data, i) == NextStart(data, start)
      decreases |data| - i
    {
      if data[i] == 0 && data[i + 1] == 0 {
        if data[i + 2] == 1 {
          return i, 3;
        }
        if i + 3 < |data| && data[i + 2] == 0 && data[i + 3] == 1 {
          return i, 4;
        }
      }
      i := i + 1;
    }
    return -1, 0;
  }

  method NextAnnexBNal(data: seq<Byte>, pos: nat) returns (r: Option<(seq<Byte>, nat)>)
    ensures r == NextNal(data, pos)
  {
    var start, prefixLen := FindStartCode(data, pos);
    if start < 0 {
      return None;
    }
    var nalStart := start + prefixLen;
    var next, _ := FindStartCode(data, nalStart);
    if next < 0 {
      next := |data|;
    }
    return Some((data[nalStart..next], next));
  }

  method ExtractVideoPayloads(accessUnit: seq<Byte>) returns (payloads: seq<seq<Byte>>)
    ensures payloads == Extract(accessUnit)
  {
    hide ExtractSei, NextNal;
    payloads := [];
    var pos: nat := 0;
    while true
      invariant pos <= |accessUnit| && payloads + ExtractFrom(accessUnit, pos) == Extract(accessUnit)
      decreases |accessUnit| - pos
    {
      var r := NextAnnexBNal(accessUnit, pos);
      if r.None? {
        return payloads;
      }
      var nal := r.value.0;
      pos := r.value.1;
      assert payloads + (NalPayloads(nal) + ExtractFrom(accessUnit, pos))
          == (payloads + NalPayloads(nal)) + ExtractFrom(accessUnit, pos);
      if |nal| < 2 || nal[0] % 0x20 != 6 {
        assert payloads + [] == payloads;
        continue;
      }
      var found := ExtractTransportSei(nal[1..]);
      if found.None? {
        assert payloads + [] == payloads;
        continue;
      }
      payloads := payloads + found.value;
    }
  }

  method BuildVideoAccessUnit(payload: seq<Byte>) returns (out: seq<Byte>)
    ensures out == AccessUnit(payload)
  {
    out := START_CODE + SPS;
    out := out + (START_CODE + PPS);
    if |payload| > 0 {
      out := out + START_CODE + [0x06];
      out := AppendEscapedSeiRbsp(out, payload);
    }
    out := out + (START_CODE + IDR);
    UnitLayout(payload);
  }

  lemma UnitLayout(p: seq<Byte>)
    ensures AccessUnit(p)
         == START_CODE + SPS + (START_CODE + PPS)
            + (if p == [] then [] else START_CODE + [0x06] + Escape(Rbsp(p))) + (START_CODE + IDR)
  {
    var nals, tail := Nals(p), [IDR];
    assert tail[1..] == [] && Stream(tail) == START_CODE + IDR + [];
    if p == [] {
      assert nals[1..] == [PPS, IDR] && nals[1..][1..] == tail;
      assert Stream(nals[1..]) == START_CODE + PPS + (START_CODE + IDR);
    } else {
      var sei := [SeiNal(p), IDR];
      assert nals[1..] == [PPS] + sei && nals[1..][1..] == sei && sei[1..] == tail;
      assert Stream(sei) == START_CODE + [0x06] + Escape(Rbsp(p)) + (START_CODE + IDR);
      assert Stream(nals[1..]) == START_CODE + PPS + Stream(sei);
    }
  }
}
