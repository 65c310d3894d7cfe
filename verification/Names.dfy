// File names on disk: the 8.3 short name, the long-file-name slots before it, and how both are
// read back.
module Names {
  import opened Bytes

  const SPACE: byte := 32
  const DOT: byte := 46
  const TILDE: byte := 126
  const LFN_ATTR: byte := 0x0F
  const LFN_LAST_ENTRY: nat := 0x40
  const MAX_NAME: nat := 256

  type Slot = s: seq<byte> | |s| == 32 witness seq(32, _ => 0)

  // Non-empty ASCII of at most 247 characters: 19 long-name slots.
  predicate Nameable(name: seq<byte>) {
    1 <= |name| <= 247 && forall i :: 0 <= i < |name| ==> 1 <= name[i] < 128
  }

  predicate IsLower(c: byte) { 97 <= c <= 122 }

  function Upper(c: byte): byte { if IsLower(c) then c - 32 else c }

  function Lower(c: byte): byte { if 65 <= c <= 90 then c + 32 else c }

  // ---- Short names ----

  // Position of the last dot; -1 when there is none.
  function LastDot(name: seq<byte>): (r: int)
    ensures -1 <= r < |name|
    ensures r >= 0 ==> name[r] == DOT
    ensures forall i :: r < i < |name| ==> name[i] != DOT
  {
    if name == [] then -1
    else if name[|name| - 1] == DOT then |name| - 1
    else LastDot(name[..|name| - 1])
  }

  function BaseLen(name: seq<byte>): (r: nat)
    ensures r <= |name|
  {
    if LastDot(name) >= 0 then LastDot(name) else |name|
  }

  // The characters that count, in upper case, at most eight.
  function Letters(s: seq<byte>): (r: seq<byte>)
    ensures |r| <= 8 && |r| <= |s|
  {
    if s == [] then []
    else
      var init := Letters(s[..|s| - 1]);
      var c := s[|s| - 1];
      if |init| == 8 || c == SPACE || c == DOT then init else init + [Upper(c)]
  }

  function Uppers(s: seq<byte>): (r: seq<byte>)
    ensures |r| == |s| && forall i :: 0 <= i < |s| ==> r[i] == Upper(s[i])
  {
    if s == [] then [] else Uppers(s[..|s| - 1]) + [Upper(s[|s| - 1])]
  }

  // s in a field of n bytes, filled with spaces.
  function Pad(s: seq<byte>, n: nat): (r: seq<byte>)
    requires |s| <= n
    ensures |r| == n && forall i :: 0 <= i < n ==> r[i] == if i < |s| then s[i] else SPACE
  {
    s + seq(n - |s|, _ => SPACE)
  }

  function Tailed(name: seq<byte>): bool { BaseLen(name) > 8 || LastDot(name) >= 0 }

  // '1' + length % 9
  function TailDigit(name: seq<byte>): byte { 49 + |name| % 9 }

  function First<T>(s: seq<T>, n: nat): (r: seq<T>)
    ensures |r| == if |s| < n then |s| else n
    ensures r <= s
  {
    if |s| < n then s else s[..n]
  }

  function BaseField(name: seq<byte>): (r: seq<byte>)
    ensures |r| == 8
  {
    var b := Letters(name[..BaseLen(name)]);
    if Tailed(name) then Pad(First(b, 6) + [TILDE, TailDigit(name)], 8) else Pad(b, 8)
  }

  function Extension(name: seq<byte>): seq<byte> {
    if LastDot(name) < 0 then [] else name[LastDot(name) + 1..]
  }

  function ExtField(name: seq<byte>): (r: seq<byte>)
    ensures |r| == 3
  {
    Pad(Uppers(First(Extension(name), 3)), 3)
  }

  function ShortName(name: seq<byte>): (r: seq<byte>)
    ensures |r| == 11
  {
    BaseField(name) + ExtField(name)
  }

  // Up to the first space.
  function Trimmed(s: seq<byte>): (r: seq<byte>)
    ensures r <= s && (forall i :: 0 <= i < |r| ==> r[i] != SPACE)
    ensures |r| < |s| ==> s[|r|] == SPACE
  {
    if s == [] || s[0] == SPACE then [] else [s[0]] + Trimmed(s[1..])
  }

  lemma {:induction false} TrimmedIs(s: seq<byte>, r: seq<byte>)
    requires r <= s && (forall i :: 0 <= i < |r| ==> r[i] != SPACE) && (|r| < |s| ==> s[|r|] == SPACE)
    ensures Trimmed(s) == r
  {
    if s != [] && s[0] != SPACE {
      assert r[0] == s[0];
      TrimmedIs(s[1..], r[1..]);
    }
  }

  function Cased(s: seq<byte>, lower: bool): (r: seq<byte>)
    ensures |r| == |s|
    ensures !lower ==> r == s
  {
    if s == [] then [] else Cased(s[..|s| - 1], lower) + [if lower then Lower(s[|s| - 1]) else s[|s| - 1]]
  }

  // The readable form of a short name; two bits of the reserved byte ask for lower case.
  function ShortToString(short: seq<byte>, ntReserved: byte): (r: seq<byte>)
    requires |short| == 11
  {
    var base := Cased(Trimmed(short[..8]), ntReserved / 8 % 2 == 1);
    if short[8] == SPACE then base
    else base + [DOT] + Cased(Trimmed(short[8..]), ntReserved / 16 % 2 == 1)
  }

  predicate TwoDots(name: seq<byte>) { exists i, j :: 0 <= i < j < |name| && name[i] == DOT && name[j] == DOT }

  // A name that gets long-name slots: not an upper-case 8.3 name.
  predicate NeedsLfn(name: seq<byte>) {
    || |name| > 12
    || (exists i :: 0 <= i < |name| && (IsLower(name[i]) || name[i] == SPACE))
    || TwoDots(name)
    || BaseLen(name) > 8 || |Extension(name)| > 3
  }

  // A base without spaces, dots and lower case is kept as it is.
  lemma {:induction false} LettersKept(s: seq<byte>)
    requires |s| <= 8 && forall i :: 0 <= i < |s| ==> s[i] != SPACE && s[i] != DOT && !IsLower(s[i])
    ensures Letters(s) == s
  {
    if s != [] { LettersKept(s[..|s| - 1]); }
  }

  lemma {:induction false} UppersKept(s: seq<byte>)
    requires forall i :: 0 <= i < |s| ==> !IsLower(s[i])
    ensures Uppers(s) == s
  {
    if s != [] { UppersKept(s[..|s| - 1]); }
  }

  // An upper-case 8.3 name taken apart.
  lemma PlainChars(name: seq<byte>)
    requires Nameable(name) && !NeedsLfn(name)
    ensures forall i :: 0 <= i < |name| ==> !IsLower(name[i]) && name[i] != SPACE
    ensures forall i :: 0 <= i < BaseLen(name) ==> name[i] != DOT
  {
    assert !TwoDots(name);
  }

  lemma PlainBase(name: seq<byte>)
    requires Nameable(name) && !NeedsLfn(name)
    ensures var b := name[..BaseLen(name)]; Letters(b) == b && |b| <= 8 && forall i :: 0 <= i < |b| ==> b[i] != SPACE
  {
    PlainChars(name);
    LettersKept(name[..BaseLen(name)]);
  }

  lemma PlainExtension(name: seq<byte>)
    requires Nameable(name) && !NeedsLfn(name)
    ensures var e := Extension(name); Uppers(First(e, 3)) == e && forall i :: 0 <= i < |e| ==> e[i] != SPACE
  {
    PlainChars(name);
    var e := Extension(name);
    WholeFirst(e, 3);
    forall i | 0 <= i < |e| ensures !IsLower(e[i]) && e[i] != SPACE { assert e[i] == name[LastDot(name) + 1 + i]; }
    UppersKept(e);
  }

  lemma WholeFirst(s: seq<byte>, n: nat)
    requires |s| <= n
    ensures First(s, n) == s
  {
  }

  lemma Joined(name: seq<byte>)
    ensures LastDot(name) < 0 ==> name == name[..BaseLen(name)]
    ensures LastDot(name) >= 0 ==> name == name[..BaseLen(name)] + [DOT] + Extension(name)
  {
  }

  function ShownBase(name: seq<byte>): seq<byte> {
    var b := name[..BaseLen(name)];
    if LastDot(name) < 0 then b else First(b, 6) + [TILDE, TailDigit(name)]
  }

  // What a name without long-name slots reads back as.
  function ReadBack(name: seq<byte>): seq<byte> {
    ShownBase(name) + if Extension(name) == [] then [] else [DOT] + Extension(name)
  }

  lemma BaseReadsBack(name: seq<byte>)
    requires Nameable(name) && !NeedsLfn(name)
    ensures Trimmed(BaseField(name)) == ShownBase(name)
  {
    PlainBase(name);
    TrimmedIs(BaseField(name), ShownBase(name));
  }

  lemma ExtReadsBack(name: seq<byte>)
    requires Nameable(name) && !NeedsLfn(name)
    ensures Trimmed(ExtField(name)) == Extension(name)
    ensures ExtField(name)[0] == SPACE <==> Extension(name) == []
  {
    PlainExtension(name);
    TrimmedIs(ExtField(name), Extension(name));
  }

  lemma ShortReadsBack(name: seq<byte>)
    requires Nameable(name) && !NeedsLfn(name)
    ensures ShortToString(ShortName(name), 0) == ReadBack(name)
  {
    BaseReadsBack(name);
    ExtReadsBack(name);
    FieldsShown(BaseField(name), ExtField(name));
  }

  lemma FieldsShown(a: seq<byte>, b: seq<byte>)
    requires |a| == 8 && |b| == 3
    ensures ShortToString(a + b, 0) == Trimmed(a) + if b[0] == SPACE then [] else [DOT] + Trimmed(b)
  {
    Fields(a, b);
  }

  lemma Fields(a: seq<byte>, b: seq<byte>)
    requires |a| == 8 && |b| == 3
    ensures (a + b)[..8] == a && (a + b)[8..] == b && (a + b)[8] == b[0]
  {
  }

  // Of the names stored without long-name slots, those without a dot read back unchanged, and
  // of those with one only names already of the form the short name gives them.
  lemma ShortRoundTripIff(name: seq<byte>)
    requires Nameable(name) && !NeedsLfn(name)
    ensures ShortToString(ShortName(name), 0) == name <==> Stable(name)
  {
    ShortReadsBack(name);
    PlainBase(name);
    Joined(name);
    if LastDot(name) >= 0 {
      TailedIff(name[..BaseLen(name)], Extension(name), TailDigit(name));
    }
  }

  lemma TailedIff(b: seq<byte>, e: seq<byte>, digit: byte)
    requires |b| <= 8 && digit != DOT
    ensures First(b, 6) + [TILDE, digit] + (if e == [] then [] else [DOT] + e) == b + [DOT] + e
            <==> |b| == 8 && b[6] == TILDE && b[7] == digit && e != []
  {
    var r, name := First(b, 6) + [TILDE, digit] + (if e == [] then [] else [DOT] + e), b + [DOT] + e;
    assert e == [] ==> r[|r| - 1] == digit && name[|name| - 1] == DOT;
    assert |b| == 8 ==> r[6] == TILDE && r[7] == digit && name[6] == b[6] && name[7] == b[7];
    assert |b| == 8 && b[6] == TILDE && b[7] == digit ==> b == First(b, 6) + [TILDE, digit];
  }

  predicate Stable(name: seq<byte>) {
    LastDot(name) < 0
    || (BaseLen(name) == 8 && name[6] == TILDE && name[7] == TailDigit(name) && Extension(name) != [])
  }

  // "A.B" comes back as "A~4.B".
  lemma ShortNameIsChanged(name: seq<byte>)
    requires name == [65, DOT, 66]
    ensures Nameable(name) && !NeedsLfn(name)
    ensures ShortToString(ShortName(name), 0) == [65, TILDE, 52, DOT, 66]
  {
    DotInAB(name);
    ShortReadsBack(name);
    ReadBackAB(name);
  }

  lemma DotInAB(name: seq<byte>)
    requires name == [65, DOT, 66]
    ensures LastDot(name) == 1 && Extension(name) == [66] && Nameable(name) && !NeedsLfn(name)
  {
    assert name[0] == 65 && name[1] == DOT && name[2] == 66;
  }

  lemma ReadBackAB(name: seq<byte>)
    requires name == [65, DOT, 66] && LastDot(name) == 1 && Extension(name) == [66]
    ensures ReadBack(name) == [65, TILDE, 52, DOT, 66]
  {
    assert name[..1] == [65] && First(name[..1], 6) == [65] && TailDigit(name) == 52;
  }

  // A string up to its first zero byte.
  function Cut(s: seq<byte>): seq<byte> {
    if s == [] || s[0] == 0 then [] else [s[0]] + Cut(s[1..])
  }

  lemma {:induction false} CutKeeps(s: seq<byte>)
    requires forall i :: 0 <= i < |s| ==> s[i] != 0
    ensures Cut(s) == s
  {
    if s != [] { CutKeeps(s[1..]); }
  }

  // ---- Long names ----

  // Character at a position of a stored name: the name, a terminator, then filling.
  function Unit(name: seq<byte>, pos: nat): (u: nat)
    ensures u < 0x1_0000
  {
    if pos < |name| then name[pos] else if pos == |name| then 0 else 0xFFFF
  }

  function LfnCount(name: seq<byte>): nat { (|name| + 13 - 1) / 13 }

  function Lo(u: nat): byte { u % 0x100 }

  function Hi(u: nat): byte
    requires u < 0x1_0000
  {
    u / 0x100
  }

  // Slot number n of a long name, counting from 1 at the short entry.
  function LfnSlot(name: seq<byte>, n: nat, checksum: byte): (s: Slot)
    requires 1 <= n <= LfnCount(name) <= 20
  {
    var b := (n - 1) * 13;
    var order := if n == LfnCount(name) then n + LFN_LAST_ENTRY else n;
    [order] + Chars(name, b, 5) + [LFN_ATTR, 0, checksum] + Chars(name, b + 5, 6) + [0, 0] + Chars(name, b + 11, 2)
  }

  // n characters from a position, two bytes each.
  function Chars(name: seq<byte>, pos: nat, n: nat): (r: seq<byte>)
    ensures |r| == 2 * n
    ensures forall j :: 0 <= j < n ==> r[2 * j] == Lo(Unit(name, pos + j)) && r[2 * j + 1] == Hi(Unit(name, pos + j))
  {
    if n == 0 then []
    else
      var last := Unit(name, pos + n - 1);
      Chars(name, pos, n - 1) + [Lo(last), Hi(last)]
  }

  // Where in a slot its thirteen characters are.
  function UnitOffset(k: nat): (o: nat)
    requires k < 13
    ensures o <= 30
  {
    if k < 5 then 1 + 2 * k else if k < 11 then 14 + 2 * (k - 5) else 28 + 2 * (k - 11)
  }

  function SlotUnit(s: Slot, k: nat): nat
    requires k < 13
  {
    HalfAt(s, UnitOffset(k))
  }

  lemma SlotUnits(name: seq<byte>, n: nat, checksum: byte, k: nat)
    requires 1 <= n <= LfnCount(name) <= 20 && k < 13
    ensures SlotUnit(LfnSlot(name, n, checksum), k) == Unit(name, (n - 1) * 13 + k)
  {
    var b, s := (n - 1) * 13, LfnSlot(name, n, checksum);
    var c1, c2, c3 := Chars(name, b, 5), Chars(name, b + 5, 6), Chars(name, b + 11, 2);
    var o, u := UnitOffset(k), Unit(name, b + k);
    if k < 5 {
      assert s[o] == c1[2 * k] && s[o + 1] == c1[2 * k + 1];
    } else if k < 11 {
      assert s[o] == c2[2 * (k - 5)] && s[o + 1] == c2[2 * (k - 5) + 1];
    } else {
      assert s[o] == c3[2 * (k - 11)] && s[o + 1] == c3[2 * (k - 11) + 1];
    }
    assert u == 0x100 * (u / 0x100) + u % 0x100;
  }

  // Slots for numbers n down to 1.
  function LfnSlots(name: seq<byte>, n: nat, checksum: byte): (r: seq<Slot>)
    requires n <= LfnCount(name) <= 20
    ensures |r| == n && forall i :: 0 <= i < n ==> r[i] == LfnSlot(name, n - i, checksum)
  {
    if n == 0 then [] else [LfnSlot(name, n, checksum)] + LfnSlots(name, n - 1, checksum)
  }

  // Character at a position, read from slots whose last one holds the beginning.
  function UnitIn(lfn: seq<Slot>, pos: nat): nat
    requires pos < 13 * |lfn|
  {
    SlotUnit(lfn[|lfn| - 1 - pos / 13], pos % 13)
  }

  // The name read from slots, from a position on: to a terminator, at most 255 characters.
  function Extract(lfn: seq<Slot>, pos: nat): seq<byte>
    decreases MAX_NAME - pos
  {
    if pos >= 13 * |lfn| || pos >= MAX_NAME - 1 then []
    else if UnitIn(lfn, pos) == 0 || UnitIn(lfn, pos) == 0xFFFF then []
    else [Lo(UnitIn(lfn, pos))] + Extract(lfn, pos + 1)
  }

  lemma UnitPlace(count: nat, pos: nat)
    requires pos < 13 * count
    ensures pos / 13 < count && pos / 13 * 13 + pos % 13 == pos
  {
  }

  lemma UnitStored(name: seq<byte>, checksum: byte, pos: nat)
    requires LfnCount(name) <= 20 && pos < 13 * LfnCount(name)
    ensures UnitIn(LfnSlots(name, LfnCount(name), checksum), pos) == Unit(name, pos)
  {
    var count, q, r := LfnCount(name), pos / 13, pos % 13;
    UnitPlace(count, pos);
    SlotUnits(name, q + 1, checksum, r);
    SlotAt(name, count, checksum, count - 1 - q);
  }

  lemma SlotAt(name: seq<byte>, n: nat, checksum: byte, i: nat)
    requires i < n <= LfnCount(name) <= 20
    ensures LfnSlots(name, n, checksum)[i] == LfnSlot(name, n - i, checksum)
  {
  }

  lemma CountBounds(name: seq<byte>)
    ensures 13 * LfnCount(name) >= |name|
    ensures |name| <= 247 ==> LfnCount(name) <= 19
    ensures |name| >= 1 ==> LfnCount(name) >= 1
  {
  }

  lemma ExtractStep(lfn: seq<Slot>, pos: nat, c: byte)
    requires pos < 13 * |lfn| && pos < MAX_NAME - 1 && UnitIn(lfn, pos) == c && 1 <= c
    ensures Extract(lfn, pos) == [c] + Extract(lfn, pos + 1)
  {
  }

  // The slots hold the name's character at a position.
  predicate SpellsAt(name: seq<byte>, lfn: seq<Slot>, pos: nat) {
    pos < 13 * |lfn| ==> UnitIn(lfn, pos) == Unit(name, pos)
  }

  lemma {:induction false} ExtractStored(name: seq<byte>, lfn: seq<Slot>, pos: nat)
    requires Nameable(name) && pos <= |name| <= 13 * |lfn|
    requires forall p: nat :: SpellsAt(name, lfn, p)
    ensures Extract(lfn, pos) == name[pos..]
    decreases |name| - pos
  {
    assert SpellsAt(name, lfn, pos);
    if pos < |name| {
      ExtractStored(name, lfn, pos + 1);
      ExtractStep(lfn, pos, name[pos]);
      assert name[pos..] == [name[pos]] + name[pos + 1..];
    }
  }

  // A long name read back from its slots is the name.
  lemma LongRoundTrip(name: seq<byte>, checksum: byte)
    requires Nameable(name)
    ensures 1 <= LfnCount(name) <= 19 && Extract(LfnSlots(name, LfnCount(name), checksum), 0) == name
  {
    CountBounds(name);
    var lfn := LfnSlots(name, LfnCount(name), checksum);
    forall p: nat ensures SpellsAt(name, lfn, p) {
      if p < 13 * |lfn| { UnitStored(name, checksum, p); }
    }
    ExtractStored(name, lfn, 0);
    assert name[0..] == name;
  }

  // One rotation and addition per byte of the short name.
  function Checksum(short: seq<byte>): byte
  {
    if short == [] then 0
    else
      var sum := Checksum(short[..|short| - 1]);
      ((if sum % 2 == 1 then 0x80 else 0) + sum / 2 + short[|short| - 1]) % 0x100
  }
}
