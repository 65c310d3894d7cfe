// The loops that turn a name into its short form and decide whether it needs long-name slots.
module NameWriting {
  import opened Bytes
  import opened Names

  method FindLastDot(name: seq<byte>) returns (lastDot: int)
    ensures lastDot == LastDot(name)
  {
    lastDot := -1;
    var i := 0;
    while i < |name|
      invariant 0 <= i <= |name| && lastDot == LastDot(name[..i])
    {
      assert name[..i + 1][..i] == name[..i];
      if name[i] == DOT { lastDot := i; }
      i := i + 1;
    }
    assert name[..|name|] == name;
  }

  // Once eight characters have been taken, the rest does not matter.
  lemma {:induction false} LettersFull(s: seq<byte>, i: nat)
    requires i <= |s| && |Letters(s[..i])| == 8
    ensures Letters(s) == Letters(s[..i])
    decreases |s| - i
  {
    if i < |s| {
      assert s[..i + 1][..i] == s[..i];
      LettersFull(s, i + 1);
    } else {
      assert s[..i] == s;
    }
  }

  lemma PadMore(s: seq<byte>, c: byte, n: nat)
    requires |s| < n
    ensures Pad(s, n)[|s| := c] == Pad(s + [c], n)
  {
  }

  // The base, in the first eight of eleven bytes.
  method FillBase(name: seq<byte>, baseLen: nat) returns (short: seq<byte>, j: nat)
    requires baseLen <= |name|
    ensures short == Pad(Letters(name[..baseLen]), 11) && j == |Letters(name[..baseLen])|
  {
    short, j := Pad([], 11), 0;
    var i := 0;
    while i < baseLen && j < 8
      invariant 0 <= i <= baseLen && short == Pad(Letters(name[..i]), 11) && j == |Letters(name[..i])|
    {
      var c := name[i];
      assert name[..i + 1][..i] == name[..i];
      if c != SPACE && c != DOT {
        PadMore(Letters(name[..i]), Upper(c), 11);
        short := short[j := Upper(c)];
        j := j + 1;
      }
      i := i + 1;
    }
    assert name[..baseLen][..i] == name[..i];
    if j == 8 { LettersFull(name[..baseLen], i); }
  }

  lemma TailedField(b: seq<byte>, digit: byte)
    requires |b| <= 8
    ensures var j := if |b| > 6 then 6 else |b|;
      Pad(b, 11)[j := TILDE][j + 1 := digit] == Pad(First(b, 6) + [TILDE, digit], 8) + Pad([], 3)
  {
  }

  lemma PlainField(b: seq<byte>)
    requires |b| <= 8
    ensures Pad(b, 11) == Pad(b, 8) + Pad([], 3)
  {
  }

  lemma ExtMore(base: seq<byte>, e: seq<byte>, k: nat)
    requires |base| == 8 && k < 3 && k < |e|
    ensures (base + Pad(Uppers(e[..k]), 3))[8 + k := Upper(e[k])] == base + Pad(Uppers(e[..k + 1]), 3)
  {
    assert e[..k + 1][..k] == e[..k];
  }

  // The extension, in the last three.
  method FillExtension(base: seq<byte>, e: seq<byte>) returns (short: seq<byte>)
    requires |base| == 8
    ensures short == base + Pad(Uppers(First(e, 3)), 3)
  {
    short := base + Pad([], 3);
    var k := 0;
    while k < |e| && k < 3
      invariant 0 <= k <= |e| && k <= 3 && short == base + Pad(Uppers(e[..k]), 3)
    {
      ExtMore(base, e, k);
      short := short[8 + k := Upper(e[k])];
      k := k + 1;
    }
    assert e[..k] == First(e, 3);
  }

  method NameToShort(name: seq<byte>) returns (short: seq<byte>)
    ensures short == ShortName(name)
  {
    var lastDot := FindLastDot(name);
    var baseLen := if lastDot >= 0 then lastDot else |name|;
    var j;
    short, j := FillBase(name, baseLen);
    ghost var b := Letters(name[..baseLen]);
    PlainField(b);
    if baseLen > 8 || lastDot >= 0 {
      TailedField(b, TailDigit(name));
      if j > 6 { j := 6; }
      short := short[j := TILDE][j + 1 := 49 + |name| % 9];
    }
    assert short == BaseField(name) + Pad([], 3);
    if lastDot >= 0 {
      short := FillExtension(short[..8], name[lastDot + 1..]);
    }
  }

  method LfnChecksum(short: seq<byte>) returns (sum: byte)
    ensures sum == Checksum(short)
  {
    sum := 0;
    var i := 0;
    while i < |short|
      invariant 0 <= i <= |short| && sum == Checksum(short[..i])
    {
      assert short[..i + 1][..i] == short[..i];
      sum := ((if sum % 2 == 1 then 0x80 else 0) + sum / 2 + short[i]) % 0x100;
      i := i + 1;
    }
    assert short[..|short|] == short;
  }

  // Not an upper-case 8.3 name.
  method CheckLfn(name: seq<byte>) returns (long: bool)
    ensures long <==> NeedsLfn(name)
  {
    if |name| > 12 { return true; }
    var dot, i := -1, 0;
    while i < |name|
      invariant 0 <= i <= |name| && -1 <= dot < i && dot == LastDot(name[..i])
      invariant forall k :: 0 <= k < i ==> !IsLower(name[k]) && name[k] != SPACE && (name[k] == DOT ==> k == dot)
    {
      assert name[..i + 1][..i] == name[..i];
      if name[i] == DOT {
        if dot >= 0 {
          assert TwoDots(name);
          return true;
        }
        dot := i;
      } else if IsLower(name[i]) {
        return true;
      } else if name[i] == SPACE {
        return true;
      }
      i := i + 1;
    }
    assert name[..|name|] == name;
    var baseLen := if dot >= 0 then dot else |name|;
    var extLen := if dot >= 0 then |name| - dot - 1 else 0;
    return baseLen > 8 || extLen > 3;
  }
}
