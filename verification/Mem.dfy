// mem::copy, mem::move and mem::set: four bytes at a time where source and destination have
// the same alignment, one at a time elsewhere. Addresses are indices into one memory, so
// source and destination may overlap.
module Mem {
  import opened Bytes

  // Memory after the n bytes at s have been copied to d as they were.
  function Moved(m: seq<byte>, d: nat, s: nat, n: nat): (r: seq<byte>)
    requires d + n <= |m| && s + n <= |m|
    ensures |r| == |m|
    ensures forall a :: 0 <= a < |m| ==> r[a] == if d <= a < d + n then m[s + (a - d)] else m[a]
  {
    seq(|m|, a requires 0 <= a < |m| => if d <= a < d + n then m[s + (a - d)] else m[a])
  }

  function Filled(m: seq<byte>, d: nat, v: byte, n: nat): (r: seq<byte>)
    requires d + n <= |m|
    ensures |r| == |m|
    ensures forall a :: 0 <= a < |m| ==> r[a] == if d <= a < d + n then v else m[a]
  {
    seq(|m|, a requires 0 <= a < |m| => if d <= a < d + n then v else m[a])
  }

  // One aligned 32-bit load and store: all four bytes are read before any is written.
  method CopyWord(m: array<byte>, d: nat, s: nat)
    requires d + 4 <= m.Length && s + 4 <= m.Length && d % 4 == 0 && s % 4 == 0
    modifies m
    ensures m[..] == Moved(old(m[..]), d, s, 4)
  {
    m[d], m[d + 1], m[d + 2], m[d + 3] := m[s], m[s + 1], m[s + 2], m[s + 3];
  }

  method CopyByte(m: array<byte>, d: nat, s: nat)
    requires d < m.Length && s < m.Length
    modifies m
    ensures m[..] == Moved(old(m[..]), d, s, 1)
  {
    m[d] := m[s];
  }

  // ---- Copying forward ----

  // Memory after n bytes have been copied from s to d one at a time, first byte first: what
  // has been written may be read again.
  function Bytewise(m: seq<byte>, d: nat, s: nat, n: nat): (r: seq<byte>)
    requires d + n <= |m| && s + n <= |m|
    ensures |r| == |m|
  {
    if n == 0 then m
    else
      var r := Bytewise(m, d, s, n - 1);
      r[d + n - 1 := r[s + n - 1]]
  }

  // Nothing outside the destination changes.
  lemma {:induction false} BytewiseOutside(m: seq<byte>, d: nat, s: nat, n: nat, a: nat)
    requires d + n <= |m| && s + n <= |m| && a < |m| && !(d <= a < d + n)
    ensures Bytewise(m, d, s, n)[a] == m[a]
  {
    if n > 0 { BytewiseOutside(m, d, s, n - 1, a); }
  }

  // Copying in two parts.
  lemma {:induction false} BytewiseSplit(m: seq<byte>, d: nat, s: nat, k: nat, w: nat)
    requires d + k + w <= |m| && s + k + w <= |m|
    ensures Bytewise(Bytewise(m, d, s, k), d + k, s + k, w) == Bytewise(m, d, s, k + w)
  {
    if w > 0 { BytewiseSplit(m, d, s, k, w - 1); }
  }

  // Copying forward never overwrites a byte before it has been read, if the destination
  // starts at or before the source or behind its end.
  predicate ForwardSafe(d: nat, s: nat, n: nat) { d <= s || s + n <= d }

  lemma {:induction false} ForwardIsMove(m: seq<byte>, d: nat, s: nat, n: nat)
    requires d + n <= |m| && s + n <= |m| && ForwardSafe(d, s, n)
    ensures Bytewise(m, d, s, n) == Moved(m, d, s, n)
  {
    if n > 0 {
      ForwardIsMove(m, d, s, n - 1);
      assert Moved(m, d, s, n) == Moved(m, d, s, n - 1)[d + n - 1 := m[s + n - 1]];
    }
  }

  // With the destination p = d - s bytes behind the source, every byte written is the one p
  // bytes before it: what was written is read again.
  lemma {:induction false} BytewiseRepeats(m: seq<byte>, d: nat, s: nat, n: nat, i: nat)
    requires d + n <= |m| && s + n <= |m| && s < d && i < n
    ensures Bytewise(m, d, s, n)[d + i] == Bytewise(m, d, s, n)[s + i]
  {
    if i < n - 1 { BytewiseRepeats(m, d, s, n - 1, i); }
  }

  // Byte i of the source is the one p bytes before it.
  predicate SameAsBefore(m: seq<byte>, s: nat, p: nat, i: nat)
    requires p <= i && s + i < |m|
  {
    m[s + i] == m[s + i - p]
  }

  // The source is its first p bytes over and over.
  ghost predicate Periodic(m: seq<byte>, s: nat, p: nat, n: nat)
    requires s + n <= |m|
  {
    forall i | p <= i < n :: SameAsBefore(m, s, p, i)
  }

  lemma {:induction false} PeriodicIsMove(m: seq<byte>, d: nat, s: nat, n: nat)
    requires d + n <= |m| && s + n <= |m| && s < d && Periodic(m, s, d - s, n)
    ensures Bytewise(m, d, s, n) == Moved(m, d, s, n)
  {
    if n > 0 {
      PeriodicIsMove(m, d, s, n - 1);
      if n - 1 >= d - s { assert SameAsBefore(m, s, d - s, n - 1); }
      assert Moved(m, d, s, n) == Moved(m, d, s, n - 1)[d + n - 1 := m[s + n - 1]];
    }
  }

  // Forward copying is moving exactly when the destination does not start inside the source, or
  // the source is its first d - s bytes repeated.
  lemma ForwardIsMoveIff(m: seq<byte>, d: nat, s: nat, n: nat)
    requires d + n <= |m| && s + n <= |m|
    ensures Bytewise(m, d, s, n) == Moved(m, d, s, n) <==> ForwardSafe(d, s, n) || Periodic(m, s, d - s, n)
  {
    if ForwardSafe(d, s, n) {
      ForwardIsMove(m, d, s, n);
    } else if Bytewise(m, d, s, n) == Moved(m, d, s, n) {
      var p := d - s;
      forall i | p <= i < n ensures SameAsBefore(m, s, p, i) { BytewiseRepeats(m, d, s, n, i); }
    } else if Periodic(m, s, d - s, n) {
      PeriodicIsMove(m, d, s, n);
    }
  }

  // Equal alignment keeps source and destination at least a word apart, so that reading a word
  // before writing it is reading it byte by byte.
  lemma WordIsFourBytes(m: seq<byte>, d: nat, s: nat)
    requires d + 4 <= |m| && s + 4 <= |m| && d % 4 == s % 4
    ensures Moved(m, d, s, 4) == Bytewise(m, d, s, 4)
  {
    assert d < s + 4 && s < d ==> false;
    ForwardIsMove(m, d, s, 4);
  }

  lemma OneByte(m: seq<byte>, d: nat, s: nat)
    requires d < |m| && s < |m|
    ensures Moved(m, d, s, 1) == Bytewise(m, d, s, 1)
  {
    assert Bytewise(m, d, s, 0) == m;
  }

  // Byte by byte until the destination is aligned.
  method CopyToBoundary(m: array<byte>, dst: nat, src: nat, n: nat) returns (k: nat)
    requires dst + n <= m.Length && src + n <= m.Length
    modifies m
    ensures k <= n && (k == n || (dst + k) % 4 == 0) && m[..] == Bytewise(old(m[..]), dst, src, k)
  {
    ghost var was := m[..];
    k := 0;
    while k < n && (dst + k) % 4 != 0
      invariant 0 <= k <= n && m[..] == Bytewise(was, dst, src, k)
    {
      BytewiseSplit(was, dst, src, k, 1);
      OneByte(m[..], dst + k, src + k);
      CopyByte(m, dst + k, src + k);
      k := k + 1;
    }
  }

  method CopyNextWord(m: array<byte>, dst: nat, src: nat, r: nat, ghost was: seq<byte>)
    requires dst + r + 4 <= m.Length && src + r + 4 <= m.Length && (dst + r) % 4 == 0 && (src + r) % 4 == 0
    requires |was| == m.Length && m[..] == Bytewise(was, dst, src, r)
    modifies m
    ensures m[..] == Bytewise(was, dst, src, r + 4)
  {
    BytewiseSplit(was, dst, src, r, 4);
    WordIsFourBytes(m[..], dst + r, src + r);
    CopyWord(m, dst + r, src + r);
  }

  // Whole words from offset k on.
  method CopyWords(m: array<byte>, dst: nat, src: nat, n: nat, k: nat, ghost was: seq<byte>) returns (r: nat)
    requires dst + n <= m.Length && src + n <= m.Length
    requires k <= n && |was| == m.Length && m[..] == Bytewise(was, dst, src, k)
    requires dst % 4 == src % 4 && (k == n || (dst + k) % 4 == 0)
    modifies m
    ensures k <= r <= n < r + 4 && m[..] == Bytewise(was, dst, src, r)
  {
    var words, i := (n - k) / 4, 0;
    r := k;
    SameAlignment(dst, src, k, 0);
    while i < words
      invariant 0 <= i <= words && r == k + 4 * i && m[..] == Bytewise(was, dst, src, r)
      invariant i < words ==> (dst + r) % 4 == 0 && (src + r) % 4 == 0
    {
      CopyNextWord(m, dst, src, r, was);
      i, r := i + 1, r + 4;
    }
  }

  method CopyBytes(m: array<byte>, dst: nat, src: nat, n: nat, from: nat, ghost was: seq<byte>)
    requires dst + n <= m.Length && src + n <= m.Length
    requires from <= n && |was| == m.Length && m[..] == Bytewise(was, dst, src, from)
    modifies m
    ensures m[..] == Bytewise(was, dst, src, n)
  {
    var k := from;
    while k < n
      invariant from <= k <= n && m[..] == Bytewise(was, dst, src, k)
    {
      BytewiseSplit(was, dst, src, k, 1);
      OneByte(m[..], dst + k, src + k);
      CopyByte(m, dst + k, src + k);
      k := k + 1;
    }
  }

  // The word-at-a-time copy is the bytewise one, for every source, destination and length.
  method Copy(m: array<byte>, dst: nat, src: nat, n: nat)
    requires dst + n <= m.Length && src + n <= m.Length
    modifies m
    ensures m[..] == Bytewise(old(m[..]), dst, src, n)
  {
    ghost var was := m[..];
    var k := 0;
    if dst % 4 == src % 4 {
      k := CopyToBoundary(m, dst, src, n);
      k := CopyWords(m, dst, src, n, k, was);
    }
    CopyBytes(m, dst, src, n, k, was);
  }

  // ---- Copying backward ----

  // Copying backward, from the end down to offset k, when the destination lies behind the source.
  lemma BackwardStep(m: seq<byte>, d: nat, s: nat, n: nat, l: nat, w: nat)
    requires d + n <= |m| && s + n <= |m| && s < d && l + w <= n
    ensures Moved(Moved(m, d + l + w, s + l + w, n - l - w), d + l, s + l, w) == Moved(m, d + l, s + l, n - l)
  {
    var one := Moved(m, d + l + w, s + l + w, n - l - w);
    var two := Moved(one, d + l, s + l, w);
    forall a | 0 <= a < |m| ensures two[a] == Moved(m, d + l, s + l, n - l)[a] {
      if d + l <= a < d + l + w { assert two[a] == one[s + (a - d)] == m[s + (a - d)]; }
    }
  }

  // Equals the ideal copy for every source, destination and length, overlapping or not.
  method Move(m: array<byte>, dst: nat, src: nat, n: nat)
    requires dst + n <= m.Length && src + n <= m.Length
    modifies m
    ensures m[..] == Moved(old(m[..]), dst, src, n)
  {
    if dst < src {
      ForwardIsMove(m[..], dst, src, n);
      Copy(m, dst, src, n);
    } else if dst > src {
      MoveBackward(m, dst, src, n);
    }
  }

  // Byte by byte until the end of the destination still to fill is aligned.
  method BackToBoundary(m: array<byte>, dst: nat, src: nat, n: nat) returns (k: nat)
    requires dst + n <= m.Length && src + n <= m.Length && src < dst
    modifies m
    ensures k <= n && (k == 0 || (dst + k) % 4 == 0) && m[..] == Moved(old(m[..]), dst + k, src + k, n - k)
  {
    ghost var was := m[..];
    k := n;
    while k > 0 && (dst + k) % 4 != 0
      invariant 0 <= k <= n && m[..] == Moved(was, dst + k, src + k, n - k)
    {
      BackwardStep(was, dst, src, n, k - 1, 1);
      CopyByte(m, dst + k - 1, src + k - 1);
      k := k - 1;
    }
  }

  method BackWords(m: array<byte>, dst: nat, src: nat, n: nat, k: nat, ghost was: seq<byte>) returns (r: nat)
    requires dst + n <= m.Length && src + n <= m.Length && src < dst
    requires k <= n && |was| == m.Length && m[..] == Moved(was, dst + k, src + k, n - k)
    requires k == 0 || ((dst + k) % 4 == 0 && (src + k) % 4 == 0)
    modifies m
    ensures r < 4 && r <= n && m[..] == Moved(was, dst + r, src + r, n - r)
  {
    var words := k / 4;
    r := k;
    while words > 0
      invariant 0 <= words && r == 4 * words + k % 4 && r <= n && m[..] == Moved(was, dst + r, src + r, n - r)
      invariant r == 0 || ((dst + r) % 4 == 0 && (src + r) % 4 == 0)
    {
      BackwardStep(was, dst, src, n, r - 4, 4);
      CopyWord(m, dst + r - 4, src + r - 4);
      words, r := words - 1, r - 4;
    }
  }

  method BackBytes(m: array<byte>, dst: nat, src: nat, n: nat, from: nat, ghost was: seq<byte>)
    requires dst + n <= m.Length && src + n <= m.Length && src < dst
    requires from <= n && |was| == m.Length && m[..] == Moved(was, dst + from, src + from, n - from)
    modifies m
    ensures m[..] == Moved(was, dst, src, n)
  {
    var k := from;
    while k > 0
      invariant 0 <= k <= n && m[..] == Moved(was, dst + k, src + k, n - k)
    {
      BackwardStep(was, dst, src, n, k - 1, 1);
      CopyByte(m, dst + k - 1, src + k - 1);
      k := k - 1;
    }
  }

  // Equal alignment at the ends is equal alignment throughout.
  lemma SameAlignment(d: nat, s: nat, k: nat, n: nat)
    requires (d + n) % 4 == (s + n) % 4
    ensures (d + k) % 4 == (s + k) % 4
  {
    assert (d + k) % 4 == ((d + n) % 4 + k - n) % 4 && (s + k) % 4 == ((s + n) % 4 + k - n) % 4;
  }

  method MoveBackward(m: array<byte>, dst: nat, src: nat, n: nat)
    requires dst + n <= m.Length && src + n <= m.Length && src < dst
    modifies m
    ensures m[..] == Moved(old(m[..]), dst, src, n)
  {
    ghost var was := m[..];
    var k := n;
    if (dst + n) % 4 == (src + n) % 4 {
      k := BackToBoundary(m, dst, src, n);
      SameAlignment(dst, src, k, n);
      k := BackWords(m, dst, src, n, k, was);
    }
    BackBytes(m, dst, src, n, k, was);
  }

  method Set(m: array<byte>, dst: nat, val: int, n: nat)
    requires dst + n <= m.Length
    modifies m
    ensures m[..] == Filled(old(m[..]), dst, val % 256, n)
  {
    ghost var was := m[..];
    var v: byte := val % 256;
    var k := 0;
    while k < n && (dst + k) % 4 != 0
      invariant 0 <= k <= n && m[..] == Filled(was, dst, v, k)
    {
      m[dst + k] := v;
      k := k + 1;
    }
    var words, first, i := (n - k) / 4, k, 0;
    while i < words
      invariant 0 <= i <= words && k == first + 4 * i && m[..] == Filled(was, dst, v, k)
    {
      m[dst + k], m[dst + k + 1], m[dst + k + 2], m[dst + k + 3] := v, v, v, v;
      i, k := i + 1, k + 4;
    }
    while k < n
      invariant 0 <= k <= n && m[..] == Filled(was, dst, v, k)
    {
      m[dst + k] := v;
      k := k + 1;
    }
  }
}
