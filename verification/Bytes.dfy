// Bytes, 512-byte sectors and the little-endian integers stored in them.
module Bytes {
  const U32: nat := 0x1_0000_0000

  type byte = b: int | 0 <= b < 256

  type Sector = s: seq<byte> | |s| == 512 witness seq(512, _ => 0)

  // The value of a 32-bit little-endian word.
  function Word(b0: byte, b1: byte, b2: byte, b3: byte): (w: nat)
    ensures w < U32
  {
    b0 + 0x100 * b1 + 0x1_0000 * b2 + 0x100_0000 * b3
  }

  // 16-bit little-endian values.
  function Half(b0: byte, b1: byte): (h: nat)
    ensures h < 0x1_0000
  {
    b0 + 0x100 * b1
  }

  function HalfBytes(h: nat): (s: seq<byte>)
    requires h < 0x1_0000
    ensures |s| == 2
  {
    [h % 0x100, h / 0x100]
  }

  // The value of bytes in little-endian order.
  function Value(bs: seq<byte>): nat {
    if bs == [] then 0 else bs[0] + 0x100 * Value(bs[1..])
  }

  lemma ValueOfWord(s: seq<byte>, o: nat)
    requires o + 4 <= |s|
    ensures Value(s[o..o + 4]) == Word(s[o], s[o + 1], s[o + 2], s[o + 3])
  {
    var w := s[o..o + 4];
    assert w[1..][1..] == w[2..] && w[2..][1..] == w[3..] && w[3..][1..] == [];
    assert Value(w[3..]) == s[o + 3] && Value(w[2..]) == s[o + 2] + 0x100 * Value(w[3..]);
  }

  // The 32-bit word stored at offset o of a buffer.
  function WordAt(s: seq<byte>, o: nat): (w: nat)
    requires o + 4 <= |s|
    ensures w < U32
  {
    ValueOfWord(s, o);
    Value(s[o..o + 4])
  }

  function HalfAt(s: seq<byte>, o: nat): (h: nat)
    requires o + 2 <= |s|
    ensures h < 0x1_0000
  {
    Half(s[o], s[o + 1])
  }

  function WordBytes(w: nat): (s: seq<byte>)
    requires w < U32
    ensures |s| == 4
  {
    [w % 0x100, w / 0x100 % 0x100, w / 0x1_0000 % 0x100, w / 0x100_0000]
  }

  // The buffer after the bytes bs have been copied to offset o.
  function Patch(s: seq<byte>, o: nat, bs: seq<byte>): (r: seq<byte>)
    requires o + |bs| <= |s|
    ensures |r| == |s|
    ensures forall i :: 0 <= i < |s| ==> r[i] == if o <= i < o + |bs| then bs[i - o] else s[i]
  {
    s[..o] + bs + s[o + |bs|..]
  }

  lemma WordBytesValue(w: nat)
    requires w < U32
    ensures var b := WordBytes(w); Word(b[0], b[1], b[2], b[3]) == w
  {
    var h, t := w / 0x100, w / 0x1_0000;
    assert w == 0x100 * h + w % 0x100 && t == h / 0x100;
    assert h == 0x100 * t + h % 0x100 && w / 0x100_0000 == t / 0x100;
    assert t == 0x100 * (t / 0x100) + t % 0x100;
  }

  lemma WordPatched(s: seq<byte>, o: nat, w: nat)
    requires o + 4 <= |s| && w < U32
    ensures WordAt(Patch(s, o, WordBytes(w)), o) == w
  {
    WordBytesValue(w);
    ValueOfWord(Patch(s, o, WordBytes(w)), o);
  }

  lemma WordUntouched(s: seq<byte>, o: nat, bs: seq<byte>, p: nat)
    requires o + |bs| <= |s| && p + 4 <= |s|
    requires p + 4 <= o || o + |bs| <= p
    ensures WordAt(Patch(s, o, bs), p) == WordAt(s, p)
  {
    assert Patch(s, o, bs)[p..p + 4] == s[p..p + 4];
  }
}
