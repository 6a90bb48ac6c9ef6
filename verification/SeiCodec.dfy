/** Payloads inside H.264 access units: emulation prevention (sections 7.3.1 and 7.4.1 of ITU-T
    H.264), SEI message syntax (section 7.3.2.3.1) and the Annex B byte stream. */
module SeiCodec {
  import opened Bytes

  const UUID: seq<Byte> := [
    0x5d, 0xc0, 0x3b, 0xa8, 0x45, 0x0f, 0x4b, 0x55, 0x9a, 0x77, 0x1f, 0x91, 0x6c, 0x5b, 0x07, 0x39]
  const SPS: seq<Byte> := [
    0x67, 0x42, 0xc0, 0x0a, 0xdd, 0xec, 0x04, 0x40, 0x00, 0x00, 0x03, 0x00, 0x40, 0x00, 0x00, 0x03,
    0x00, 0xa3, 0xc4, 0x89, 0xe0]
  const PPS: seq<Byte> := [0x68, 0xce, 0x0f, 0xc8]
  const IDR: seq<Byte> := [0x65, 0x88, 0x84, 0x3a, 0x26, 0x28, 0x00, 0x09, 0x02, 0xe0]
  const START_CODE: seq<Byte> := [0x00, 0x00, 0x00, 0x01]
  const STOP: Byte := 0x80

  // -------------------------------------------------------- emulation prevention

  /** Trailing zero bytes after one more byte. */
  function Zeros(zeros: nat, b: Byte): nat {
    if b == 0 then zeros + 1 else 0
  }

  /** What one source byte becomes when `zeros` zero bytes have just been written. */
  function EscapedByte(zeros: nat, b: Byte): seq<Byte> {
    if zeros >= 2 && b <= 3 then [3, b] else [b]
  }

  function ZerosAfterByte(zeros: nat, b: Byte): nat {
    Zeros(if zeros >= 2 && b <= 3 then 0 else zeros, b)
  }

  function ZerosAfter(zeros: nat, s: seq<Byte>): nat
    decreases |s|
  {
    if s == [] then zeros else ZerosAfter(ZerosAfterByte(zeros, s[0]), s[1..])
  }

  function EscapeFrom(zeros: nat, s: seq<Byte>): seq<Byte>
    decreases |s|
  {
    if s == [] then [] else EscapedByte(zeros, s[0]) + EscapeFrom(ZerosAfterByte(zeros, s[0]), s[1..])
  }

  function Escape(s: seq<Byte>): seq<Byte> {
    EscapeFrom(0, s)
  }

  /** Removal of the prevention bytes, given the raw zero bytes seen so far. */
  function UnescapeFrom(zeros: nat, s: seq<Byte>): seq<Byte>
    decreases |s|
  {
    if s == [] then []
    else (if zeros >= 2 && s[0] == 3 then [] else [s[0]]) + UnescapeFrom(Zeros(zeros, s[0]), s[1..])
  }

  function Unescape(s: seq<Byte>): seq<Byte> {
    UnescapeFrom(0, s)
  }

  /** Escaping is a stream transformer: it may stop and resume anywhere. */
  lemma {:induction false} EscapeAppend(zeros: nat, a: seq<Byte>, b: seq<Byte>)
    ensures EscapeFrom(zeros, a + b) == EscapeFrom(zeros, a) + EscapeFrom(ZerosAfter(zeros, a), b)
    ensures ZerosAfter(zeros, a + b) == ZerosAfter(ZerosAfter(zeros, a), b)
    decreases |a|
  {
    hide EscapedByte, ZerosAfterByte;
    if a == [] {
      assert a + b == b;
    } else {
      assert (a + b)[1..] == a[1..] + b;
      EscapeAppend(ZerosAfterByte(zeros, a[0]), a[1..], b);
    }
  }

  lemma EscapeSnoc(zeros: nat, a: seq<Byte>, b: Byte)
    ensures EscapeFrom(zeros, a + [b]) == EscapeFrom(zeros, a) + EscapedByte(ZerosAfter(zeros, a), b)
    ensures ZerosAfter(zeros, a + [b]) == ZerosAfterByte(ZerosAfter(zeros, a), b)
  {
    EscapeAppend(zeros, a, [b]);
    var z := ZerosAfter(zeros, a);
    assert EscapeFrom(z, [b]) == EscapedByte(z, b) + EscapeFrom(ZerosAfterByte(z, b), []);
  }

  /** unescapeRBSP inverts escapeRBSP on every input. */
  lemma {:induction false} UnescapeInverts(zeros: nat, s: seq<Byte>)
    ensures UnescapeFrom(zeros, EscapeFrom(zeros, s)) == s
    decreases |s|
  {
    if s != [] {
      var b, rest := s[0], EscapeFrom(ZerosAfterByte(zeros, s[0]), s[1..]);
      UnescapeInverts(ZerosAfterByte(zeros, b), s[1..]);
      if zeros >= 2 && b <= 3 {
        var t := [b] + rest;
        assert [3, b] + rest == [3] + t;
        assert ([3] + t)[1..] == t && t[1..] == rest;
        assert UnescapeFrom(0, t) == [b] + UnescapeFrom(Zeros(0, b), rest);
      } else {
        assert ([b] + rest)[1..] == rest;
      }
      assert [b] + s[1..] == s;
    }
  }

  /** No byte below 3 follows two zero bytes, counting `zeros` zero bytes before `s`. */
  predicate Clean(zeros: nat, s: seq<Byte>)
    decreases |s|
  {
    s != [] ==> !(zeros >= 2 && s[0] <= 2) && Clean(Zeros(zeros, s[0]), s[1..])
  }

  lemma {:induction false} EscapeClean(zeros: nat, s: seq<Byte>)
    ensures Clean(zeros, EscapeFrom(zeros, s))
    decreases |s|
  {
    if s != [] {
      var b, rest := s[0], EscapeFrom(ZerosAfterByte(zeros, s[0]), s[1..]);
      EscapeClean(ZerosAfterByte(zeros, b), s[1..]);
      if zeros >= 2 && b <= 3 {
        var t := [b] + rest;
        assert [3, b] + rest == [3] + t;
        assert ([3] + t)[1..] == t && t[1..] == rest;
        assert Clean(0, t);
      } else {
        assert ([b] + rest)[1..] == rest;
      }
    }
  }

  /** A start code prefix or a reserved pattern begins at `i`. */
  predicate Emulates(s: seq<Byte>, i: nat) {
    i + 2 < |s| && s[i] == 0 && s[i + 1] == 0 && s[i + 2] <= 2
  }

  lemma {:induction false} CleanNoEmulation(zeros: nat, s: seq<Byte>, i: nat)
    requires Clean(zeros, s)
    ensures !Emulates(s, i)
    decreases i
  {
    if i > 0 && s != [] {
      CleanNoEmulation(Zeros(zeros, s[0]), s[1..], i - 1);
      assert Emulates(s, i) ==> Emulates(s[1..], i - 1);
    } else if i + 2 < |s| {
      var t := s[1..];
      var u := t[1..];
      assert Clean(Zeros(zeros, s[0]), t);
      assert Clean(Zeros(Zeros(zeros, s[0]), t[0]), u);
      assert u[0] == s[2] && t[0] == s[1];
    }
  }

  /** Escaped bytes never contain 00 00 followed by 00, 01 or 02. */
  lemma EscapedNeverEmulates(s: seq<Byte>, i: nat)
    ensures !Emulates(Escape(s), i)
  {
    EscapeClean(0, s);
    CleanNoEmulation(0, Escape(s), i);
  }

  lemma {:induction false} EscapeGrowth(zeros: nat, s: seq<Byte>)
    ensures 2 * (|EscapeFrom(zeros, s)| - |s|) + ZerosAfter(zeros, s) <= |s| + zeros
    decreases |s|
  {
    if s != [] {
      EscapeGrowth(ZerosAfterByte(zeros, s[0]), s[1..]);
    }
  }

  /** Escaping `n` bytes adds at most `n / 2`. */
  lemma EscapeAddsAtMostHalf(s: seq<Byte>)
    ensures |Escape(s)| <= |s| + |s| / 2
  {
    EscapeGrowth(0, s);
  }

  lemma {:induction false} EscapeKeepsLast(zeros: nat, s: seq<Byte>)
    requires s != []
    ensures |EscapeFrom(zeros, s)| > 0 && EscapeFrom(zeros, s)[|EscapeFrom(zeros, s)| - 1] == s[|s| - 1]
    decreases |s|
  {
    if |s| > 1 {
      EscapeKeepsLast(ZerosAfterByte(zeros, s[0]), s[1..]);
    }
  }

  // --------------------------------------------------------------- SEI messages

  function SeiValue(v: nat): seq<Byte> {
    if v >= 0xff then [0xff] + SeiValue(v - 0xff) else [v]
  }

  /** The value at `pos` and the position after it, or nothing when the data ends first. */
  function ConsumeFrom(data: seq<Byte>, pos: nat, value: nat): Option<(nat, nat)>
    decreases |data| - pos
  {
    if pos >= |data| then None
    else if data[pos] != 0xff then Some((value + data[pos], pos + 1))
    else ConsumeFrom(data, pos + 1, value + 0xff)
  }

  function Consume(data: seq<Byte>, pos: nat): Option<(nat, nat)> {
    ConsumeFrom(data, pos, 0)
  }

  lemma {:induction false} ConsumeInverts(data: seq<Byte>, pos: nat, value: nat, v: nat)
    requires pos + |SeiValue(v)| <= |data| && data[pos..pos + |SeiValue(v)|] == SeiValue(v)
    ensures ConsumeFrom(data, pos, value) == Some((value + v, pos + |SeiValue(v)|))
    decreases v
  {
    var w := data[pos..pos + |SeiValue(v)|];
    assert w[0] == data[pos];
    if v >= 0xff {
      assert data[pos + 1..pos + |SeiValue(v)|] == w[1..] == SeiValue(v - 0xff);
      ConsumeInverts(data, pos + 1, value + 0xff, v - 0xff);
    }
  }

  lemma {:induction false} ConsumeAdvances(data: seq<Byte>, pos: nat, value: nat)
    requires ConsumeFrom(data, pos, value).Some?
    ensures pos < ConsumeFrom(data, pos, value).value.1 <= |data|
    decreases |data| - pos
  {
    if pos < |data| && data[pos] == 0xff {
      ConsumeAdvances(data, pos + 1, value + 0xff);
    }
  }

  /** One SEI message: its type, payload and the position after it. */
  function MessageAt(data: seq<Byte>, pos: nat): Option<(nat, seq<Byte>, nat)> {
    match Consume(data, pos)
    case None => None
    case Some((typ, p1)) =>
      match Consume(data, p1)
      case None => None
      case Some((size, p2)) => if p2 + size > |data| then None else Some((typ, data[p2..p2 + size], p2 + size))
  }

  lemma MessageAdvances(data: seq<Byte>, pos: nat)
    requires MessageAt(data, pos).Some?
    ensures pos < MessageAt(data, pos).value.2 <= |data|
  {
    ConsumeAdvances(data, pos, 0);
    ConsumeAdvances(data, Consume(data, pos).value.1, 0);
  }

  function Carried(typ: nat, payload: seq<Byte>): seq<seq<Byte>> {
    if typ == 5 && |payload| >= |UUID| && payload[..|UUID|] == UUID then [payload[|UUID|..]] else []
  }

  /** The payloads carried by unescaped SEI data from `pos` on; nothing when it is malformed. */
  function PayloadsFrom(data: seq<Byte>, pos: nat): Option<seq<seq<Byte>>>
    decreases |data| - pos
  {
    if pos >= |data| || (data[pos] == STOP && pos == |data| - 1) then Some([])
    else
      match MessageAt(data, pos)
      case None => None
      case Some((typ, payload, next)) =>
        MessageAdvances(data, pos);
        match PayloadsFrom(data, next)
        case None => None
        case Some(rest) => Some(Carried(typ, payload) + rest)
  }

  function ExtractSei(rbsp: seq<Byte>): Option<seq<seq<Byte>>> {
    PayloadsFrom(Unescape(rbsp), 0)
  }

  /** The SEI payload that carries `p`, before escaping. */
  function Rbsp(p: seq<Byte>): seq<Byte> {
    SeiValue(5) + SeiValue(|UUID| + |p|) + UUID + p + [STOP]
  }

  lemma RbspParses(p: seq<Byte>)
    ensures PayloadsFrom(Rbsp(p), 0) == Some([p])
  {
    var data, size := Rbsp(p), |UUID| + |p|;
    var at := 1 + |SeiValue(size)|;
    assert SeiValue(5) == [5];
    assert data[0..1] == SeiValue(5);
    ConsumeInverts(data, 0, 0, 5);
    assert data[1..at] == SeiValue(size);
    ConsumeInverts(data, 1, 0, size);
    assert data[at..at + size] == UUID + p;
    assert (UUID + p)[..|UUID|] == UUID && (UUID + p)[|UUID|..] == p;
    assert |data| == at + size + 1 && data[at + size] == STOP;
    assert MessageAt(data, 0) == Some((5, UUID + p, at + size));
    assert PayloadsFrom(data, at + size) == Some([]);
    assert [p] + [] == [p];
  }

  // ------------------------------------------------------------ Annex B streams

  /** The length of the start code at `i`, or 0. */
  function StartAt(data: seq<Byte>, i: nat): nat {
    if i + 2 < |data| && data[i] == 0 && data[i + 1] == 0 && data[i + 2] == 1 then 3
    else if i + 3 < |data| && data[i] == 0 && data[i + 1] == 0 && data[i + 2] == 0 && data[i + 3] == 1 then 4
    else 0
  }

  /** The first start code at or after `i`, if any. */
  function NextStart(data: seq<Byte>, i: nat): (r: Option<nat>)
    ensures r.Some? ==> i <= r.value < |data| && StartAt(data, r.value) > 0
    ensures r.Some? ==> forall k :: i <= k < r.value ==> StartAt(data, k) == 0
    ensures r.None? ==> forall k :: i <= k ==> StartAt(data, k) == 0
    decreases |data| - i
  {
    if i + 2 >= |data| then None
    else if StartAt(data, i) > 0 then Some(i)
    else NextStart(data, i + 1)
  }

  /** The NAL unit after the first start code from `pos` on, and where the next one begins. */
  function NextNal(data: seq<Byte>, pos: nat): (r: Option<(seq<Byte>, nat)>)
    ensures r.Some? ==> pos < r.value.1 <= |data|
  {
    match NextStart(data, pos)
    case None => None
    case Some(start) =>
      var nalStart := start + StartAt(data, start);
      var next := match NextStart(data, nalStart) { case None => |data| case Some(n) => n };
      Some((data[nalStart..next], next))
  }

  function NalPayloads(nal: seq<Byte>): seq<seq<Byte>> {
    if |nal| < 2 || nal[0] % 0x20 != 6 then []
    else match ExtractSei(nal[1..]) { case None => [] case Some(found) => found }
  }

  function ExtractFrom(data: seq<Byte>, pos: nat): seq<seq<Byte>>
    requires pos <= |data|
    decreases |data| - pos
  {
    match NextNal(data, pos)
    case None => []
    case Some((nal, next)) => NalPayloads(nal) + ExtractFrom(data, next)
  }

  /** extractVideoPayloads. */
  function Extract(data: seq<Byte>): seq<seq<Byte>> {
    ExtractFrom(data, 0)
  }

  function SeiNal(p: seq<Byte>): seq<Byte> {
    [0x06] + Escape(Rbsp(p))
  }

  function Nals(p: seq<Byte>): seq<seq<Byte>> {
    if p == [] then [SPS, PPS, IDR] else [SPS, PPS, SeiNal(p), IDR]
  }

  function Stream(nals: seq<seq<Byte>>): seq<Byte> {
    if nals == [] then [] else START_CODE + nals[0] + Stream(nals[1..])
  }

  /** buildVideoAccessUnit. */
  function AccessUnit(p: seq<Byte>): seq<Byte> {
    Stream(Nals(p))
  }

  /** A NAL unit that cannot be mistaken for a start code and does not run into the next one. */
  ghost predicate SafeNal(nal: seq<Byte>) {
    nal != [] && nal[|nal| - 1] != 0 && forall i :: 0 <= i < |nal| ==> !Emulates(nal, i)
  }

  /** In a stream of safe units, the search from a unit's first byte ends at its last. */
  lemma {:induction false} SafeNalEnds(data: seq<Byte>, at: nat, nal: seq<Byte>, rest: seq<seq<Byte>>)
    requires at <= |data| && data[at..] == nal + Stream(rest) && SafeNal(nal)
    ensures NextStart(data, at) == if rest == [] then None else Some(at + |nal|)
  {
    forall k | at <= k < at + |nal| ensures StartAt(data, k) == 0 {
      NoStartInside(data, at, nal, rest, k);
    }
    if rest != [] {
      var j := at + |nal|;
      assert forall i :: 0 <= i < 4 ==> data[j + i] == data[at..][|nal| + i] == START_CODE[i];
      assert StartAt(data, j) == 4;
    } else {
      assert |data| == at + |nal|;
    }
  }

  lemma NoStartInside(data: seq<Byte>, at: nat, nal: seq<Byte>, rest: seq<seq<Byte>>, k: nat)
    requires at <= |data| && data[at..] == nal + Stream(rest) && SafeNal(nal) && at <= k < at + |nal|
    ensures StartAt(data, k) == 0
  {
    var i := k - at;
    assert forall x :: 0 <= x < |nal| ==> data[at + x] == data[at..][x] == nal[x];
    assert !Emulates(nal, i);
    if i + 2 < |nal| {
      assert data[k] == nal[i] && data[k + 1] == nal[i + 1] && data[k + 2] == nal[i + 2];
    } else {
      assert data[at + (|nal| - 1)] == nal[|nal| - 1];
    }
  }

  lemma NextNalInStream(data: seq<Byte>, pos: nat, nal: seq<Byte>, rest: seq<seq<Byte>>)
    requires pos <= |data| && data[pos..] == START_CODE + nal + Stream(rest) && SafeNal(nal)
    ensures pos + 4 + |nal| <= |data| && data[pos + 4 + |nal|..] == Stream(rest)
    ensures NextNal(data, pos) == Some((nal, pos + 4 + |nal|))
  {
    hide SafeNal, Stream, StartAt;
    var d, at := data[pos..], pos + 4;
    var next := at + |nal|;
    StartCodeAt(data, pos);
    assert data[at..] == d[4..] == nal + Stream(rest);
    SafeNalEnds(data, at, nal, rest);
    assert data[at..next] == data[at..][..|nal|] == nal;
    assert data[next..] == data[at..][|nal|..] == Stream(rest);
    assert rest == [] ==> next == |data| by { StreamEmpty(rest); }
  }

  lemma StartCodeAt(data: seq<Byte>, pos: nat)
    requires pos + 4 <= |data| && START_CODE <= data[pos..]
    ensures StartAt(data, pos) == 4
  {
    assert forall i :: 0 <= i < 4 ==> data[pos + i] == data[pos..][i] == START_CODE[i];
  }

  lemma StreamEmpty(rest: seq<seq<Byte>>)
    ensures rest == [] ==> Stream(rest) == []
  {
  }

  lemma ExtractEnd(data: seq<Byte>)
    ensures ExtractFrom(data, |data|) == []
  {
  }

  lemma ExtractStep(data: seq<Byte>, pos: nat, nal: seq<Byte>, next: nat)
    requires pos <= |data| && NextNal(data, pos) == Some((nal, next))
    ensures ExtractFrom(data, pos) == NalPayloads(nal) + ExtractFrom(data, next)
  {
    hide NextNal, NalPayloads;
  }

  /** Splitting a stream of safe units gives back the units, in order. */
  lemma {:induction false} ExtractStream(data: seq<Byte>, pos: nat, nals: seq<seq<Byte>>)
    requires pos <= |data| && data[pos..] == Stream(nals)
    requires forall i :: 0 <= i < |nals| ==> SafeNal(nals[i])
    ensures ExtractFrom(data, pos) == AllPayloads(nals)
    decreases |nals|
  {
    hide NalPayloads, SafeNal, NextNal, ExtractFrom;
    if nals == [] {
      assert pos == |data|;
      ExtractEnd(data);
    } else {
      var nal, rest := nals[0], nals[1..];
      var next := pos + 4 + |nal|;
      NextNalInStream(data, pos, nal, rest);
      ExtractStep(data, pos, nal, next);
      ExtractStream(data, next, rest);
    }
  }

  function AllPayloads(nals: seq<seq<Byte>>): seq<seq<Byte>> {
    if nals == [] then [] else NalPayloads(nals[0]) + AllPayloads(nals[1..])
  }

  lemma SeiNalSafe(p: seq<Byte>)
    ensures SafeNal(SeiNal(p))
  {
    var e := Escape(Rbsp(p));
    RbspNotEmpty(p);
    EscapeKeepsLast(0, Rbsp(p));
    EscapeClean(0, Rbsp(p));
    assert SeiNal(p)[1..] == e;
    assert Clean(0, SeiNal(p));
    forall i | 0 <= i < |SeiNal(p)| ensures !Emulates(SeiNal(p), i) {
      CleanNoEmulation(0, SeiNal(p), i);
    }
  }

  lemma RbspNotEmpty(p: seq<Byte>)
    ensures |Rbsp(p)| > 0 && Rbsp(p)[|Rbsp(p)| - 1] == STOP
  {
  }

  lemma SeiNalCarries(p: seq<Byte>)
    ensures NalPayloads(SeiNal(p)) == [p]
  {
    hide Rbsp, PayloadsFrom, EscapeFrom, UnescapeFrom;
    RbspNotEmpty(p);
    EscapeKeepsLast(0, Rbsp(p));
    UnescapeInverts(0, Rbsp(p));
    RbspParses(p);
    assert SeiNal(p)[1..] == Escape(Rbsp(p));
  }

  lemma FixedNalsSafe()
    ensures SafeNal(SPS) && SafeNal(PPS) && SafeNal(IDR)
  {
  }

  /** SEI round trip: extracting from a built access unit gives back exactly the payload, whatever
      bytes it has, and nothing for the empty payload. */
  lemma AccessUnitRoundTrip(p: seq<Byte>)
    ensures Extract(AccessUnit(p)) == if p == [] then [] else [p]
  {
    hide NalPayloads, SafeNal, SeiNal;
    FixedNalsSafe();
    FixedNalsCarryNothing();
    SeiNalSafe(p);
    SeiNalCarries(p);
    var nals := Nals(p);
    assert AccessUnit(p)[0..] == Stream(nals);
    ExtractStream(AccessUnit(p), 0, nals);
    if p == [] {
      AllPayloadsAppend([SPS, PPS], [IDR]);
      assert nals == [SPS, PPS] + [IDR];
      assert AllPayloads([SPS, PPS]) == [] && AllPayloads([IDR]) == [];
    } else {
      assert nals == [SPS, PPS] + [SeiNal(p), IDR];
      AllPayloadsAppend([SPS, PPS], [SeiNal(p), IDR]);
      assert [SeiNal(p), IDR] == [SeiNal(p)] + [IDR];
      AllPayloadsAppend([SeiNal(p)], [IDR]);
      assert AllPayloads([SPS, PPS]) == [] && AllPayloads([IDR]) == [] && AllPayloads([SeiNal(p)]) == [p];
    }
  }

  lemma FixedNalsCarryNothing()
    ensures NalPayloads(SPS) == [] && NalPayloads(PPS) == [] && NalPayloads(IDR) == []
    ensures AllPayloads([SPS, PPS]) == [] && AllPayloads([IDR]) == []
  {
    hide ExtractSei;
    assert [SPS, PPS][1..] == [PPS] && [PPS][1..] == [] && [IDR][1..] == [];
    assert AllPayloads([PPS]) == NalPayloads(PPS) + AllPayloads([]);
  }

  lemma {:induction false} AllPayloadsAppend(a: seq<seq<Byte>>, b: seq<seq<Byte>>)
    ensures AllPayloads(a + b) == AllPayloads(a) + AllPayloads(b)
  {
    hide NalPayloads;
    if a == [] {
      assert a + b == b;
    } else {
      assert (a + b)[1..] == a[1..] + b;
      AllPayloadsAppend(a[1..], b);
    }
  }
}
