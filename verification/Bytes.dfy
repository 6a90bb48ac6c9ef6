/** Bytes, fixed-width unsigned integers and their big-endian encodings, shared by every wire codec. */
module Bytes {

  type Byte = b: int | 0 <= b < 0x100
  type U16 = x: int | 0 <= x < 0x1_0000
  type U32 = x: int | 0 <= x < 0x1_0000_0000

  datatype Option<+T> = None | Some(value: T)

  /** A 32-bit checksum. The proofs hold for every such function. */
  type Checksum = seq<Byte> -> U32

  function Min(a: int, b: int): int {
    if a <= b then a else b
  }

  function Max(a: int, b: int): int {
    if a >= b then a else b
  }

  /** The conversion `uint16(x)`. */
  function ToU16(x: int): U16 {
    x % 0x1_0000
  }

  /** The conversion `uint32(x)`. */
  function ToU32(x: int): U32 {
    x % 0x1_0000_0000
  }

  /** The wrapping successor on 16 bits. */
  function Succ16(a: U16): U16 {
    (a + 1) % 0x1_0000
  }

  function Be16(x: U16): (s: seq<Byte>)
    ensures |s| == 2
  {
    [x / 0x100, x % 0x100]
  }

  function FromBe16(s: seq<Byte>): U16
    requires |s| == 2
  {
    var hi: int := s[0];
    hi * 0x100 + s[1]
  }

  function Be32(x: U32): (s: seq<Byte>)
    ensures |s| == 4
  {
    Be16(x / 0x1_0000) + Be16(x % 0x1_0000)
  }

  function FromBe32(s: seq<Byte>): U32
    requires |s| == 4
  {
    var hi: int := FromBe16(s[..2]);
    hi * 0x1_0000 + FromBe16(s[2..])
  }

  /** The big-endian number at offset `off`. */
  function Read32(data: seq<Byte>, off: nat): U32
    requires off + 4 <= |data|
  {
    FromBe32(data[off..off + 4])
  }

  lemma Be16RoundTrip(x: U16)
    ensures FromBe16(Be16(x)) == x
  {
  }

  lemma Be16Inverse(s: seq<Byte>)
    requires |s| == 2
    ensures Be16(FromBe16(s)) == s
  {
  }

  lemma Be32RoundTrip(x: U32)
    ensures FromBe32(Be32(x)) == x
  {
    var hi, lo := Be16(x / 0x1_0000), Be16(x % 0x1_0000);
    assert (hi + lo)[..2] == hi && (hi + lo)[2..] == lo;
    Be16RoundTrip(x / 0x1_0000);
    Be16RoundTrip(x % 0x1_0000);
  }

  lemma Be32Inverse(s: seq<Byte>)
    requires |s| == 4
    ensures Be32(FromBe32(s)) == s
  {
    Be16Inverse(s[..2]);
    Be16Inverse(s[2..]);
    var hi: int, lo: int := FromBe16(s[..2]), FromBe16(s[2..]);
    assert (hi * 0x1_0000 + lo) / 0x1_0000 == hi;
    assert (hi * 0x1_0000 + lo) % 0x1_0000 == lo;
    assert s[..2] + s[2..] == s;
  }

  /** The concatenation of a list of byte strings. */
  function Concat(parts: seq<seq<Byte>>): seq<Byte> {
    if parts == [] then [] else parts[0] + Concat(parts[1..])
  }

  lemma {:induction false} ConcatAppend(a: seq<seq<Byte>>, b: seq<seq<Byte>>)
    ensures Concat(a + b) == Concat(a) + Concat(b)
  {
    if a == [] {
      assert a + b == b;
    } else {
      assert (a + b)[1..] == a[1..] + b;
      ConcatAppend(a[1..], b);
    }
  }

  lemma ConcatSnoc(a: seq<seq<Byte>>, x: seq<Byte>)
    ensures Concat(a + [x]) == Concat(a) + x
  {
    ConcatAppend(a, [x]);
    assert Concat([x]) == x + Concat([]);
  }

  lemma {:induction false} SubsetSize<T>(a: set<T>, b: set<T>)
    requires a <= b
    ensures |a| <= |b|
  {
    if a != {} {
      var x :| x in a;
      SubsetSize(a - {x}, b - {x});
    }
  }
}
