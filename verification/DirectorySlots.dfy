// A directory as a row of 32-byte slots: the entries seen in it, and what putting a new entry
// into a run of free slots does to them.
module DirectorySlots {
  import opened Bytes
  import opened Names

  const END: byte := 0x00
  const FREE: byte := 0xE5
  const MAX_LFN: nat := 20

  // ---- Kinds of slots, in the order they are told apart ----

  predicate IsEnd(s: Slot) { s[0] == END }

  predicate IsFree(s: Slot) { s[0] == END || s[0] == FREE }

  predicate IsLfn(s: Slot) { !IsFree(s) && s[11] == LFN_ATTR }

  // Volume labels and the dot entries.
  predicate IsHidden(s: Slot) {
    !IsFree(s) && !IsLfn(s) && (s[11] / 8 % 2 == 1 || (s[0] == DOT && (s[1] == SPACE || s[1] == DOT)))
  }

  predicate IsVisible(s: Slot) { !IsFree(s) && !IsLfn(s) && !IsHidden(s) }

  // ---- What a reader sees ----

  datatype Seen = Seen(name: seq<byte>, slot: Slot, at: nat)

  // The name a reader gets, a string that ends at a zero byte.
  function NameOf(lfn: seq<Slot>, s: Slot): seq<byte> {
    Cut(if lfn == [] then ShortToString(s[..11], s[12]) else Extract(lfn, 0))
  }

  // Long-name slots collected so far, when slot s has been passed.
  function Collected(lfn: seq<Slot>, s: Slot): seq<Slot> {
    if IsLfn(s) then (if |lfn| < MAX_LFN then lfn + [s] else lfn) else []
  }

  // The entries from slot i on, with long-name slots already collected.
  function Scan(slots: seq<Slot>, i: nat, lfn: seq<Slot>): seq<Seen>
    requires i <= |slots|
    decreases |slots| - i
  {
    if i == |slots| || IsEnd(slots[i]) then []
    else
      var rest := Scan(slots, i + 1, Collected(lfn, slots[i]));
      if IsVisible(slots[i]) then [Seen(NameOf(lfn, slots[i]), slots[i], i)] + rest else rest
  }

  function Entries(slots: seq<Slot>): seq<Seen> { Scan(slots, 0, []) }

  // The first entry of that name, from number k on; |es| when there is none.
  function FirstNamed(es: seq<Seen>, name: seq<byte>, k: nat): (r: nat)
    requires k <= |es|
    ensures k <= r <= |es| && (r < |es| ==> es[r].name == name)
    ensures forall j :: k <= j < r ==> es[j].name != name
    decreases |es| - k
  {
    if k == |es| || es[k].name == name then k else FirstNamed(es, name, k + 1)
  }

  ghost predicate Absent(es: seq<Seen>, name: seq<byte>) {
    forall k :: 0 <= k < |es| ==> es[k].name != name
  }

  // ---- Well-formed directories ----

  // Nothing but end marks after an end mark; long-name slots lead up to an entry, at most 19
  // of them.
  ghost predicate WellFormed(slots: seq<Slot>) {
    && (forall i :: 0 <= i < |slots| ==> EndsAll(slots, i) && LeadsOn(slots, i))
    && NoOverrun(slots)
  }

  // The reader's buffer of 20 slots must have room for the short entry as well.
  ghost predicate NoOverrun(slots: seq<Slot>) {
    forall i :: 0 <= i && i + MAX_LFN <= |slots| ==> !AllLfn(slots, i)
  }

  predicate EndsAll(slots: seq<Slot>, i: nat)
    requires i < |slots|
  {
    IsEnd(slots[i]) ==> forall j :: i < j < |slots| ==> IsEnd(slots[j])
  }

  predicate LeadsOn(slots: seq<Slot>, i: nat)
    requires i < |slots|
  {
    IsLfn(slots[i]) ==> i + 1 < |slots| && !IsFree(slots[i + 1])
  }

  ghost predicate AllLfn(slots: seq<Slot>, i: nat)
    requires i + MAX_LFN <= |slots|
  {
    forall j :: i <= j < i + MAX_LFN ==> IsLfn(slots[j])
  }

  // ---- A new entry ----

  // A short entry: name and attribute, everything else zero.
  function ShortWith(short: seq<byte>, attr: byte): (s: Slot)
    requires |short| == 11
    ensures s[..11] == short && s[11] == attr && s[12] == 0
  {
    short + [attr] + seq(20, _ => 0)
  }

  function ShortSlot(name: seq<byte>, attr: byte): Slot { ShortWith(ShortName(name), attr) }

  function NewSlots(name: seq<byte>, attr: byte): (r: seq<Slot>)
    requires Nameable(name)
    ensures 1 <= |r| <= 20
  {
    CountBounds(name);
    EntrySlots(name, NeedsLfn(name), Checksum(ShortName(name)), ShortSlot(name, attr))
  }

  // Long-name slots, if there are to be any, and the short entry.
  function EntrySlots(name: seq<byte>, long: bool, sum: byte, short: Slot): (r: seq<Slot>)
    requires LfnCount(name) <= 20
    ensures |r| == if long then LfnCount(name) + 1 else 1
    ensures r[|r| - 1] == short
  {
    (if long then LfnSlots(name, LfnCount(name), sum) else []) + [short]
  }

  // The slots with ns written from p on.
  function Written(slots: seq<Slot>, p: nat, ns: seq<Slot>): (r: seq<Slot>)
    requires p + |ns| <= |slots|
    ensures |r| == |slots|
    ensures forall i :: 0 <= i < |slots| ==> r[i] == if p <= i < p + |ns| then ns[i - p] else slots[i]
  {
    slots[..p] + ns + slots[p + |ns|..]
  }

  // p starts n free slots, and is not the continuation of a free run.
  ghost predicate RunAt(slots: seq<Slot>, p: nat, n: nat) {
    && p + n <= |slots| && (forall i :: p <= i < p + n ==> IsFree(slots[i]))
    && (p > 0 ==> !IsFree(slots[p - 1]))
  }

  // Attributes of files and directories.
  predicate Plain(attr: byte) { attr / 8 % 2 == 0 }

  // ---- Facts about scanning ----

  // Slots still to come decide the rest.
  lemma {:induction false} ScanSame(slots: seq<Slot>, slots': seq<Slot>, i: nat, lfn: seq<Slot>)
    requires i <= |slots| == |slots'| && forall j :: i <= j < |slots| ==> slots'[j] == slots[j]
    ensures Scan(slots', i, lfn) == Scan(slots, i, lfn)
    decreases |slots| - i
  {
    if i < |slots| && !IsEnd(slots[i]) { ScanSame(slots, slots', i + 1, Collected(lfn, slots[i])); }
  }

  // What has been collected when slot i is reached, no end mark before it.
  function Held(slots: seq<Slot>, i: nat): seq<Slot>
    requires i <= |slots|
  {
    if i == 0 then [] else Collected(Held(slots, i - 1), slots[i - 1])
  }

  ghost predicate NoEndBefore(slots: seq<Slot>, i: nat)
    requires i <= |slots|
  {
    forall j :: 0 <= j < i ==> !IsEnd(slots[j])
  }

  // The entries among the first i slots.
  function Passed(slots: seq<Slot>, i: nat): seq<Seen>
    requires i <= |slots|
  {
    if i == 0 then []
    else if IsVisible(slots[i - 1]) then
      Passed(slots, i - 1) + [Seen(NameOf(Held(slots, i - 1), slots[i - 1]), slots[i - 1], i - 1)]
    else Passed(slots, i - 1)
  }

  lemma {:induction false} ScanSplit(slots: seq<Slot>, i: nat)
    requires i <= |slots| && NoEndBefore(slots, i)
    ensures Entries(slots) == Passed(slots, i) + Scan(slots, i, Held(slots, i))
  {
    if i > 0 {
      ScanSplit(slots, i - 1);
      assert !IsEnd(slots[i - 1]);
    }
  }

  lemma {:induction false} PassedSame(slots: seq<Slot>, slots': seq<Slot>, i: nat)
    requires i <= |slots| && i <= |slots'| && forall j :: 0 <= j < i ==> slots'[j] == slots[j]
    ensures Passed(slots', i) == Passed(slots, i) && Held(slots', i) == Held(slots, i)
  {
    if i > 0 { PassedSame(slots, slots', i - 1); }
  }

  // ---- The new entry in the scan ----

  lemma {:induction false} ScanLfn(slots: seq<Slot>, i: nat, lfn: seq<Slot>, ns: seq<Slot>)
    requires i + |ns| <= |slots| && |lfn| + |ns| <= MAX_LFN
    requires forall k :: 0 <= k < |ns| ==> IsLfn(ns[k]) && slots[i + k] == ns[k]
    ensures Scan(slots, i, lfn) == Scan(slots, i + |ns|, lfn + ns)
    decreases |ns|
  {
    if ns == [] {
      assert lfn + ns == lfn;
    } else {
      assert slots[i] == ns[0];
      ScanLfn(slots, i + 1, lfn + [ns[0]], ns[1..]);
      assert lfn + [ns[0]] + ns[1..] == lfn + ns;
    }
  }

  lemma {:induction false} ScanFree(slots: seq<Slot>, i: nat, n: nat)
    requires i + n <= |slots| && forall k :: i <= k < i + n ==> IsFree(slots[k])
    ensures Scan(slots, i, []) == if exists k :: i <= k < i + n && IsEnd(slots[k]) then [] else Scan(slots, i + n, [])
    decreases n
  {
    if n > 0 && !IsEnd(slots[i]) {
      ScanFree(slots, i + 1, n - 1);
      assert (exists k :: i <= k < i + n && IsEnd(slots[k]))
        <==> (exists k :: i + 1 <= k < i + 1 + (n - 1) && IsEnd(slots[k]));
    }
  }

  lemma LfnSlotKind(name: seq<byte>, n: nat, checksum: byte)
    requires 1 <= n <= LfnCount(name) <= 20
    ensures IsLfn(LfnSlot(name, n, checksum))
  {
    var s := LfnSlot(name, n, checksum);
    assert s[11] == LFN_ATTR;
  }

  // First byte of a short name: a letter of the name or a tilde or a space.
  lemma {:induction false} LettersStart(s: seq<byte>)
    requires forall i :: 0 <= i < |s| ==> 1 <= s[i] < 128
    ensures forall i :: 0 <= i < |Letters(s)| ==> 1 <= Letters(s)[i] < 128 && Letters(s)[i] != DOT
  {
    if s != [] { LettersStart(s[..|s| - 1]); }
  }

  lemma ShortSlotVisible(name: seq<byte>, attr: byte)
    requires Nameable(name) && Plain(attr)
    ensures IsVisible(ShortSlot(name, attr))
  {
    var s := ShortSlot(name, attr);
    LettersStart(name[..BaseLen(name)]);
    assert s[0] == s[..11][0] == BaseField(name)[0];
    assert 1 <= s[0] < 128 && s[0] != DOT;
  }

  // ---- Creating an entry ----

  // The name the new entry is seen under.
  function StoredName(name: seq<byte>): seq<byte> {
    if NeedsLfn(name) then name else ReadBack(name)
  }

  // It is the name that was asked for.
  predicate Faithful(name: seq<byte>) { NeedsLfn(name) || Stable(name) }

  lemma FaithfulExactly(name: seq<byte>)
    requires Nameable(name)
    ensures StoredName(name) == name <==> Faithful(name)
  {
    if !NeedsLfn(name) {
      ShortReadsBack(name);
      ShortRoundTripIff(name);
    }
  }

  lemma CutReadBack(name: seq<byte>)
    requires Nameable(name)
    ensures Cut(ReadBack(name)) == ReadBack(name)
  {
    var b, e := ShownBase(name), Extension(name);
    assert forall i :: 0 <= i < |b| ==> b[i] != 0;
    assert forall i :: 0 <= i < |e| ==> e[i] != 0;
    CutKeeps(ReadBack(name));
  }

  // ns are the slots of one entry, seen under the name shown, with that short entry.
  ghost predicate IsEntry(ns: seq<Slot>, shown: seq<byte>, short: Slot) {
    && 1 <= |ns| <= MAX_LFN && (forall k :: 0 <= k < |ns| - 1 ==> IsLfn(ns[k]))
    && ns[|ns| - 1] == short && IsVisible(short) && NameOf(ns[..|ns| - 1], short) == shown
  }

  lemma LfnSlotKinds(name: seq<byte>, n: nat, sum: byte, k: nat)
    requires k < n <= LfnCount(name) <= 20
    ensures IsLfn(LfnSlots(name, n, sum)[k])
  {
    LfnSlotKind(name, n - k, sum);
  }

  lemma EntryOf(lfn: seq<Slot>, short: Slot, shown: seq<byte>)
    requires |lfn| < MAX_LFN && IsVisible(short) && NameOf(lfn, short) == shown
    requires forall k :: 0 <= k < |lfn| ==> IsLfn(lfn[k])
    ensures IsEntry(lfn + [short], shown, short)
  {
    assert (lfn + [short])[..|lfn|] == lfn;
  }

  lemma LongEntry(name: seq<byte>, lfn: seq<Slot>, short: Slot, sum: byte)
    requires Nameable(name) && IsVisible(short) && LfnCount(name) <= 20 && lfn == LfnSlots(name, LfnCount(name), sum)
    ensures IsEntry(lfn + [short], name, short)
  {
    LongRoundTrip(name, sum);
    CutKeeps(name);
    forall k | 0 <= k < |lfn| ensures IsLfn(lfn[k]) { LfnSlotKinds(name, LfnCount(name), sum, k); }
    EntryOf(lfn, short, name);
  }

  lemma ShortEntry(name: seq<byte>, short: Slot)
    requires Nameable(name) && !NeedsLfn(name) && IsVisible(short) && short[..11] == ShortName(name) && short[12] == 0
    ensures IsEntry([short], ReadBack(name), short)
  {
    var ns := [short];
    assert ns[..|ns| - 1] == [];
    ShortReadsBack(name);
    CutReadBack(name);
  }

  lemma NewEntry(name: seq<byte>, attr: byte)
    requires Nameable(name) && Plain(attr)
    ensures IsEntry(NewSlots(name, attr), StoredName(name), ShortSlot(name, attr))
  {
    var short, sum := ShortSlot(name, attr), Checksum(ShortName(name));
    CountBounds(name);
    ShortSlotVisible(name, attr);
    if NeedsLfn(name) {
      LongEntry(name, LfnSlots(name, LfnCount(name), sum), short, sum);
    } else {
      ShortEntry(name, short);
      assert [] + [short] == [short];
    }
  }

  lemma ScanRun(slots: seq<Slot>, p: nat, ns: seq<Slot>, shown: seq<byte>, short: Slot)
    requires p + |ns| <= |slots| && IsEntry(ns, shown, short) && (forall k :: 0 <= k < |ns| ==> slots[p + k] == ns[k])
    ensures Scan(slots, p, []) == [Seen(shown, short, p + |ns| - 1)] + Scan(slots, p + |ns|, [])
  {
    var lfn := ns[..|ns| - 1];
    ScanLfn(slots, p, [], lfn);
    assert [] + lfn == lfn;
    assert slots[p + |lfn|] == ns[|ns| - 1];
  }

  // The run starts a new row of free slots, so nothing is collected there and no end is behind.
  lemma RunIsClear(slots: seq<Slot>, p: nat, n: nat)
    requires WellFormed(slots) && RunAt(slots, p, n) && n > 0
    ensures NoEndBefore(slots, p) && Held(slots, p) == []
  {
    if p > 0 {
      assert LeadsOn(slots, p - 1);
      assert IsFree(slots[p]);
      forall j | 0 <= j < p ensures !IsEnd(slots[j]) { assert EndsAll(slots, j); }
    }
  }

  // Overwriting a free run changes nothing behind it.
  lemma BehindRun(slots: seq<Slot>, p: nat, ns: seq<Slot>)
    requires WellFormed(slots) && RunAt(slots, p, |ns|)
    ensures Scan(slots, p, []) == Scan(Written(slots, p, ns), p + |ns|, [])
  {
    var r, q := Written(slots, p, ns), p + |ns|;
    ScanFree(slots, p, |ns|);
    ScanSame(slots, r, q, []);
    if k :| p <= k < q && IsEnd(slots[k]) {
      assert EndsAll(slots, k);
      if q < |slots| { assert IsEnd(slots[q]) && r[q] == slots[q]; }
    }
  }

  // The directory sees its old entries, unchanged and in their order, and the new one among them.
  lemma CreateAdds(slots: seq<Slot>, p: nat, ns: seq<Slot>, shown: seq<byte>, short: Slot)
    requires WellFormed(slots) && IsEntry(ns, shown, short) && RunAt(slots, p, |ns|)
    ensures var r := Written(slots, p, ns); var after := Scan(r, p + |ns|, []);
      && Entries(slots) == Passed(slots, p) + after
      && Entries(r) == Passed(slots, p) + ([Seen(shown, short, p + |ns| - 1)] + after)
  {
    var r := Written(slots, p, ns);
    RunIsClear(slots, p, |ns|);
    ScanSplit(slots, p);
    PassedSame(slots, r, p);
    ScanSplit(r, p);
    BehindRun(slots, p, ns);
    ScanRun(r, p, ns, shown, short);
  }

  lemma EndOutside(slots: seq<Slot>, p: nat, ns: seq<Slot>, i: nat)
    requires p + |ns| <= |slots| && i < |slots| && NoEndBefore(slots, p) && IsEnd(Written(slots, p, ns)[i])
    requires forall k :: 0 <= k < |ns| ==> !IsFree(ns[k])
    ensures i >= p + |ns|
  {
    assert p <= i < p + |ns| ==> !IsFree(ns[i - p]);
  }

  lemma LeadsOnStill(slots: seq<Slot>, p: nat, ns: seq<Slot>, i: nat)
    requires WellFormed(slots) && RunAt(slots, p, |ns|) && i < |slots| && 1 <= |ns|
    requires (forall k :: 0 <= k < |ns| ==> !IsFree(ns[k])) && !IsLfn(ns[|ns| - 1])
    ensures LeadsOn(Written(slots, p, ns), i)
  {
    var r := Written(slots, p, ns);
    assert LeadsOn(slots, i);
    if i + 1 == p { assert r[i] == slots[i] && IsFree(slots[p]); }
    if p <= i < p + |ns| { assert r[i] == ns[i - p]; }
  }

  // Well-formedness is kept, so the next creation finds a well-formed directory again.
  lemma CreateKeepsForm(slots: seq<Slot>, p: nat, ns: seq<Slot>, shown: seq<byte>, short: Slot)
    requires WellFormed(slots) && IsEntry(ns, shown, short) && RunAt(slots, p, |ns|)
    ensures WellFormed(Written(slots, p, ns))
  {
    var r, n := Written(slots, p, ns), |ns|;
    RunIsClear(slots, p, n);
    forall i | 0 <= i < |r| ensures EndsAll(r, i) {
      if IsEnd(r[i]) {
        EndOutside(slots, p, ns, i);
        assert EndsAll(slots, i);
      }
    }
    forall i | 0 <= i < |r| ensures LeadsOn(r, i) { LeadsOnStill(slots, p, ns, i); }
    forall i | 0 <= i && i + MAX_LFN <= |r| ensures !AllLfn(r, i) { NoLongRun(slots, p, ns, i); }
  }

  lemma NoLongRun(slots: seq<Slot>, p: nat, ns: seq<Slot>, i: nat)
    requires WellFormed(slots) && RunAt(slots, p, |ns|) && 1 <= |ns| <= 20 && !IsLfn(ns[|ns| - 1])
      && i + MAX_LFN <= |slots|
    ensures !AllLfn(Written(slots, p, ns), i)
  {
    var r, e := Written(slots, p, ns), p + |ns| - 1;
    assert !IsLfn(r[e]);
    if i <= e < i + MAX_LFN {
    } else if i + MAX_LFN <= p || i > e {
      assert !AllLfn(slots, i);
    } else {
      // The window ends inside the new slots, so it holds the slot before them.
      assert LeadsOn(slots, p - 1);
      assert r[p - 1] == slots[p - 1] && IsFree(slots[p]);
    }
  }

  // ---- A longer directory ----

  function Zeros(n: nat): (r: seq<Slot>)
    ensures |r| == n && forall i :: 0 <= i < n ==> r[i] == ZeroSlot()
  {
    seq(n, _ => ZeroSlot())
  }

  function ZeroSlot(): Slot { seq(32, _ => 0) }

  lemma {:induction false} ScanZeros(slots: seq<Slot>, n: nat, i: nat, lfn: seq<Slot>)
    requires i <= |slots|
    ensures Scan(slots + Zeros(n), i, lfn) == Scan(slots, i, lfn)
    decreases |slots| - i
  {
    if i < |slots| {
      if !IsEnd(slots[i]) { ScanZeros(slots, n, i + 1, Collected(lfn, slots[i])); }
    } else if n > 0 {
      assert IsEnd((slots + Zeros(n))[i]);
    }
  }

  // A zeroed cluster added to a directory shows nothing and spoils nothing.
  lemma ExtensionIsSilent(slots: seq<Slot>, n: nat)
    requires WellFormed(slots)
    ensures WellFormed(slots + Zeros(n)) && Entries(slots + Zeros(n)) == Entries(slots)
  {
    var r := slots + Zeros(n);
    ScanZeros(slots, n, 0, []);
    forall i | 0 <= i < |r| ensures LeadsOn(r, i) && EndsAll(r, i) {
      if i < |slots| { assert LeadsOn(slots, i) && EndsAll(slots, i); }
    }
    forall i | 0 <= i && i + MAX_LFN <= |r| ensures !AllLfn(r, i) {
      if i + MAX_LFN <= |slots| {
        assert !AllLfn(slots, i);
        var j :| i <= j < i + MAX_LFN && !IsLfn(slots[j]);
        assert r[j] == slots[j];
      } else {
        assert !IsLfn(r[i + MAX_LFN - 1]);
      }
    }
  }
}
