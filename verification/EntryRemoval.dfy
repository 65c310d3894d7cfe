// Removing an entry: the slots it marks as free, in the cluster of the short slot and in the one
// before, and what the directory shows afterwards.
module EntryRemoval {
  import opened Bytes
  import opened Names
  import opened DirectorySlots

  // ---- Marking slots ----

  // The test made when walking back: the attribute alone, so that freed slots pass it as well.
  predicate LfnAttr(s: Slot) { s[11] == LFN_ATTR }

  function Marked(s: Slot): (r: Slot)
    ensures IsFree(r) && !IsEnd(r) && r[11] == s[11]
  {
    s[0 := FREE]
  }

  // The slots from a up to b marked.
  function Erased(slots: seq<Slot>, a: nat, b: nat): (r: seq<Slot>)
    requires a <= b <= |slots|
    ensures |r| == |slots| && forall j :: 0 <= j < |r| ==> r[j] == if a <= j < b then Marked(slots[j]) else slots[j]
  {
    seq(|slots|, j requires 0 <= j < |slots| => if a <= j < b then Marked(slots[j]) else slots[j])
  }

  // How far back from slot at the attribute goes on, not below lo.
  function Back(slots: seq<Slot>, lo: nat, at: nat): (r: nat)
    requires lo <= at <= |slots|
    ensures lo <= r <= at && forall j :: r <= j < at ==> LfnAttr(slots[j])
    ensures r > lo ==> !LfnAttr(slots[r - 1])
  {
    if lo < at && LfnAttr(slots[at - 1]) then Back(slots, lo, at - 1) else at
  }

  // The slots of a cluster that begins with slot base marked: the short slot at and those before.
  function MarkedHere(slots: seq<Slot>, base: nat, at: nat): (r: seq<Slot>)
    requires base <= at < |slots|
    ensures |r| == |slots|
  {
    Erased(slots, Back(slots, base, at), at + 1)
  }

  // The test for going on in the cluster before.
  predicate GoesOn(s: Slot, first: bool) { first || (LfnAttr(s) && s[0] != FREE) }

  // The slots after the entry with short slot at has been removed. Its cluster begins with slot
  // base, the one before with slot prev; prev is base when there is none.
  function Removed(slots: seq<Slot>, prev: nat, base: nat, at: nat): (r: seq<Slot>)
    requires prev <= base <= at < |slots|
    ensures |r| == |slots|
  {
    var here := MarkedHere(slots, base, at);
    if GoesOn(here[base], at == base) then Erased(here, Back(here, prev, base), base) else here
  }

  // ---- The slots of an entry ----

  // Slot at is a short slot, and the long-name slots before it begin with slot s.
  ghost predicate Occupies(slots: seq<Slot>, s: nat, at: nat) {
    s <= at < |slots| && IsVisible(slots[at]) && LfnRun(slots, s, at)
  }

  ghost predicate LfnRun(slots: seq<Slot>, s: nat, at: nat)
    requires s <= at <= |slots|
  {
    (forall j :: s <= j < at ==> IsLfn(slots[j])) && (s > 0 ==> !IsLfn(slots[s - 1]))
  }

  lemma {:induction false} RunBefore(slots: seq<Slot>, at: nat) returns (s: nat)
    requires at <= |slots|
    ensures s <= at && LfnRun(slots, s, at)
  {
    s := at;
    if 0 < at && IsLfn(slots[at - 1]) { s := RunBefore(slots, at - 1); }
  }

  // The entry with these slots, as it is seen when its long name is taken from slot z on.
  function SeenFrom(slots: seq<Slot>, z: nat, at: nat): Seen
    requires z <= at < |slots|
  {
    Seen(NameOf(slots[z..at], slots[at]), slots[at], at)
  }

  lemma NoEnds(slots: seq<Slot>, at: nat)
    requires WellFormed(slots) == true && at < |slots| && !IsFree(slots[at])
    ensures NoEndBefore(slots, at) == true
  {
    forall j | 0 <= j < at ensures !IsEnd(slots[j]) { assert EndsAll(slots, j); }
  }

  lemma NotLfnBefore(slots: seq<Slot>, j: nat)
    requires WellFormed(slots) == true && j + 1 < |slots| && IsFree(slots[j + 1])
    ensures !IsLfn(slots[j])
  {
    assert LeadsOn(slots, j);
  }

  // Behind a free slot, going back, no long-name slot is in use.
  lemma {:induction false} DeadRun(slots: seq<Slot>, a: nat, b: nat)
    requires WellFormed(slots) == true && a <= b < |slots| && IsFree(slots[b])
    requires forall j :: a <= j < b ==> LfnAttr(slots[j])
    ensures forall j :: a <= j < b ==> IsFree(slots[j])
    decreases b - a
  {
    if a < b {
      NotLfnBefore(slots, b - 1);
      DeadRun(slots, a, b - 1);
    }
  }

  function Larger(a: nat, b: nat): nat { if a < b then b else a }

  // Of the slots walked over from at, those in use are a run of long-name slots.
  lemma BackIsRun(slots: seq<Slot>, lo: nat, s: nat, at: nat)
    requires WellFormed(slots) == true && lo <= at < |slots| && s <= at && LfnRun(slots, s, at) && !IsFree(slots[at])
    ensures Back(slots, lo, at) <= Larger(s, lo) && DeadTo(slots, Back(slots, lo, at), Larger(s, lo)) == true
  {
    var b, x := Back(slots, lo, at), Larger(s, lo);
    NoEnds(slots, at);
    if b < x {
      if LfnAttr(slots[s - 1]) { assert IsFree(slots[s - 1]); }
      DeadRun(slots, b, s - 1);
    }
  }

  // The slots from a up to x are marked already.
  ghost predicate DeadTo(slots: seq<Slot>, a: nat, x: nat) {
    a <= x <= |slots| && forall j :: a <= j < x ==> IsFree(slots[j]) && !IsEnd(slots[j])
  }

  lemma MarkedTwice(s: Slot)
    requires IsFree(s) && !IsEnd(s)
    ensures Marked(s) == s
  {
  }

  lemma MarkingDead(slots: seq<Slot>, a: nat, x: nat, b: nat)
    requires DeadTo(slots, a, x) && x <= b <= |slots|
    ensures Erased(slots, a, b) == Erased(slots, x, b)
  {
    forall j | a <= j < x ensures Marked(slots[j]) == slots[j] { MarkedTwice(slots[j]); }
  }

  lemma {:induction false} BackSame(slots: seq<Slot>, r: seq<Slot>, lo: nat, at: nat)
    requires lo <= at <= |slots| == |r| && forall j :: lo <= j < at ==> r[j] == slots[j]
    ensures Back(r, lo, at) == Back(slots, lo, at)
    decreases at
  {
    if lo < at { BackSame(slots, r, lo, at - 1); }
  }

  // ---- What removal comes to ----

  // The cluster begins with long-name slots of another entry, which reach back into the one before.
  predicate Robs(slots: seq<Slot>, prev: nat, base: nat, s: nat)
    requires prev <= base && s < |slots|
  {
    prev < base < s && IsLfn(slots[base]) && IsLfn(slots[base - 1])
  }

  // The first slot marked of those of the entry: where it starts, or where the walk stops.
  function Lowest(prev: nat, base: nat, s: nat, at: nat): nat {
    Larger(s, if at == base then prev else base)
  }

  lemma HereIs(slots: seq<Slot>, base: nat, s: nat, at: nat)
    requires WellFormed(slots) == true && Occupies(slots, s, at) && base <= at
    ensures MarkedHere(slots, base, at) == Erased(slots, Larger(s, base), at + 1)
  {
    BackIsRun(slots, base, s, at);
    MarkingDead(slots, Back(slots, base, at), Larger(s, base), at + 1);
  }

  lemma ErasedTwice(slots: seq<Slot>, a: nat, b: nat, c: nat)
    requires a <= b <= c <= |slots|
    ensures Erased(Erased(slots, b, c), a, b) == Erased(slots, a, c)
  {
  }

  // The walk in the cluster before, over slots that are as they were.
  lemma BeforeIs(slots: seq<Slot>, here: seq<Slot>, prev: nat, t: nat, base: nat)
    requires WellFormed(slots) == true && prev <= base < |slots| && t <= base && LfnRun(slots, t, base)
    requires !IsFree(slots[base]) && |here| == |slots| && forall j :: 0 <= j < base ==> here[j] == slots[j]
    ensures Erased(here, Back(here, prev, base), base) == Erased(here, Larger(t, prev), base)
  {
    var b, x := Back(slots, prev, base), Larger(t, prev);
    BackSame(slots, here, prev, base);
    BackIsRun(slots, prev, t, base);
    assert DeadTo(here, b, x);
    MarkingDead(here, b, x, base);
  }

  lemma RemovedAtStart(slots: seq<Slot>, prev: nat, base: nat, s: nat)
    requires WellFormed(slots) == true && Occupies(slots, s, base) && prev <= base
    ensures Removed(slots, prev, base, base) == Erased(slots, Larger(s, prev), base + 1)
  {
    var here := MarkedHere(slots, base, base);
    HereIs(slots, base, s, base);
    BeforeIs(slots, here, prev, s, base);
    ErasedTwice(slots, Larger(s, prev), base, base + 1);
  }

  lemma NothingErased(slots: seq<Slot>, b: nat)
    requires b <= |slots|
    ensures Erased(slots, b, b) == slots
  {
  }

  // The entry does not begin its cluster, and t is where the long-name slots before that begin.
  lemma RemovedInside(slots: seq<Slot>, prev: nat, base: nat, s: nat, at: nat, t: nat)
    requires WellFormed(slots) == true && Occupies(slots, s, at) && prev <= base < at
    requires t <= base && LfnRun(slots, t, base)
    ensures var here := Erased(slots, Larger(s, base), at + 1);
      Removed(slots, prev, base, at)
      == if base < s && IsLfn(slots[base]) then Erased(here, Larger(t, prev), base) else here
  {
    var here := MarkedHere(slots, base, at);
    HereIs(slots, base, s, at);
    NoEnds(slots, at);
    if GoesOn(here[base], false) { BeforeIs(slots, here, prev, t, base); }
  }

  // An entry that robs none: exactly slots of its own.
  lemma RemovalIs(slots: seq<Slot>, prev: nat, base: nat, s: nat, at: nat)
    requires WellFormed(slots) == true && Occupies(slots, s, at) && prev <= base <= at && !Robs(slots, prev, base, s)
    ensures Removed(slots, prev, base, at) == Erased(slots, Lowest(prev, base, s, at), at + 1)
  {
    if at == base {
      RemovedAtStart(slots, prev, base, s);
    } else {
      var t := RunBefore(slots, base);
      RemovedInside(slots, prev, base, s, at, t);
      if base < s && IsLfn(slots[base]) { NothingErased(Erased(slots, s, at + 1), base); }
    }
  }

  // ---- What the directory shows ----

  lemma ShortRun(slots: seq<Slot>, s: nat, at: nat)
    requires NoOverrun(slots) && s <= at <= |slots| && LfnRun(slots, s, at)
    ensures at < |slots| && !IsLfn(slots[at]) ==> at - s < MAX_LFN
  {
    if s + MAX_LFN <= |slots| {
      assert !AllLfn(slots, s);
      var j :| s <= j < s + MAX_LFN && !IsLfn(slots[j]);
      assert at <= j;
    }
  }

  lemma HeldNone(slots: seq<Slot>, s: nat)
    requires s <= |slots| && (s > 0 ==> !IsLfn(slots[s - 1]))
    ensures Held(slots, s) == []
  {
  }

  lemma SeenNext(slots: seq<Slot>, at: nat, lfn: seq<Slot>)
    requires at < |slots| && IsVisible(slots[at])
    ensures Scan(slots, at, lfn) == [Seen(NameOf(lfn, slots[at]), slots[at], at)] + Scan(slots, at + 1, [])
  {
  }

  lemma EntryFacts(slots: seq<Slot>, s: nat, at: nat)
    requires WellFormed(slots) == true && Occupies(slots, s, at)
    ensures NoEndBefore(slots, at) == true && Held(slots, s) == [] && at - s < MAX_LFN
  {
    NoEnds(slots, at);
    ShortRun(slots, s, at);
    HeldNone(slots, s);
  }

  // Long-name slots from a up to b, nothing collected before.
  lemma {:induction false} ScanRunOf(slots: seq<Slot>, a: nat, b: nat)
    requires a <= b <= |slots| && b - a <= MAX_LFN && forall j :: a <= j < b ==> IsLfn(slots[j])
    ensures Scan(slots, a, []) == Scan(slots, b, slots[a..b])
    decreases b
  {
    if a < b {
      ScanRunOf(slots, a, b - 1);
      LfnNext(slots, b - 1, slots[a..b - 1]);
      SliceGrows(slots, a, b);
    } else {
      assert slots[a..b] == [];
    }
  }

  lemma SliceGrows(slots: seq<Slot>, a: nat, b: nat)
    requires a < b <= |slots|
    ensures slots[a..b - 1] + [slots[b - 1]] == slots[a..b]
  {
  }

  lemma LfnNext(slots: seq<Slot>, i: nat, lfn: seq<Slot>)
    requires i < |slots| && IsLfn(slots[i]) && |lfn| < MAX_LFN
    ensures Scan(slots, i, lfn) == Scan(slots, i + 1, lfn + [slots[i]])
  {
  }

  // Marked slots from y up to z show nothing, whatever has been collected.
  lemma {:induction false} ScanDead(slots: seq<Slot>, y: nat, z: nat, lfn: seq<Slot>)
    requires y < z && DeadTo(slots, y, z)
    ensures Scan(slots, y, lfn) == Scan(slots, z, [])
    decreases z - y
  {
    assert Collected(lfn, slots[y]) == [];
    if y + 1 < z { ScanDead(slots, y + 1, z, []); }
  }

  lemma ScanEntry(slots: seq<Slot>, s: nat, at: nat)
    requires Occupies(slots, s, at) && at - s < MAX_LFN
    ensures Scan(slots, s, []) == [SeenFrom(slots, s, at)] + Scan(slots, at + 1, [])
  {
    ScanRunOf(slots, s, at);
    SeenNext(slots, at, slots[s..at]);
  }

  // With the slots from y up to z marked, what is left of the entry is seen from z on.
  lemma ScanPart(slots: seq<Slot>, s: nat, y: nat, z: nat, at: nat)
    requires Occupies(slots, s, at) && at - s < MAX_LFN && s <= y < z <= at + 1
    ensures Scan(Erased(slots, y, z), s, [])
      == (if z <= at then [SeenFrom(slots, z, at)] else []) + Scan(slots, at + 1, [])
  {
    var r := Erased(slots, y, z);
    ScanRunOf(r, s, y);
    ScanDead(r, y, z, r[s..y]);
    ScanSame(slots, r, z, []);
    if z <= at {
      ScanRunOf(slots, z, at);
      SeenNext(slots, at, slots[z..at]);
    }
  }

  // What is left of the entry is seen under what is left of its name.
  lemma PartShows(slots: seq<Slot>, s: nat, y: nat, z: nat, at: nat)
    requires WellFormed(slots) == true && Occupies(slots, s, at) && s <= y < z <= at + 1
    ensures var rest := Scan(slots, at + 1, []);
      && Entries(slots) == Passed(slots, s) + ([SeenFrom(slots, s, at)] + rest)
      && Entries(Erased(slots, y, z))
        == Passed(slots, s) + ((if z <= at then [SeenFrom(slots, z, at)] else []) + rest)
  {
    var r := Erased(slots, y, z);
    EntryFacts(slots, s, at);
    ScanSplit(slots, s);
    PassedSame(slots, r, s);
    ScanSplit(r, s);
    ScanEntry(slots, s, at);
    ScanPart(slots, s, y, z, at);
  }

  // Entries stand at slots in use, in the order of these.
  lemma {:induction false} ScanPlaces(slots: seq<Slot>, i: nat, lfn: seq<Slot>, m: nat)
    requires i <= |slots| && m < |Scan(slots, i, lfn)|
    ensures var e := Scan(slots, i, lfn)[m];
      i <= e.at < |slots| && IsVisible(slots[e.at]) && e.slot == slots[e.at]
    decreases |slots| - i
  {
    if IsVisible(slots[i]) {
      if m > 0 { ScanPlaces(slots, i + 1, [], m - 1); }
    } else {
      ScanPlaces(slots, i + 1, Collected(lfn, slots[i]), m);
    }
  }

  lemma {:induction false} PassedPlaces(slots: seq<Slot>, i: nat, m: nat)
    requires i <= |slots| && m < |Passed(slots, i)|
    ensures Passed(slots, i)[m].at < i
  {
    if i > 0 && m < |Passed(slots, i - 1)| { PassedPlaces(slots, i - 1, m); }
  }

  function Without(es: seq<Seen>, m: nat): seq<Seen>
    requires m < |es|
  {
    es[..m] + es[m + 1..]
  }

  lemma OneBetween(es: seq<Seen>, a: seq<Seen>, x: Seen, b: seq<Seen>)
    requires es == a + ([x] + b)
    ensures |a| < |es| && Without(es, |a|) == a + b && es[|a|] == x
    ensures forall j :: |a| < j < |es| ==> j - |a| - 1 < |b| && es[j] == b[j - |a| - 1]
  {
  }

  lemma WhichEntry(slots: seq<Slot>, s: nat, at: nat, es: seq<Seen>, a: seq<Seen>, rest: seq<Seen>, x: Seen, m: nat)
    requires s <= at < |slots| && a == Passed(slots, s) && rest == Scan(slots, at + 1, []) && es == a + ([x] + rest)
    requires m < |es| && es[m].at == at
    ensures m == |a| && es[m] == x && Without(es, m) == a + rest
  {
    OneBetween(es, a, x, rest);
    if m < |a| { PassedPlaces(slots, s, m); }
    if m > |a| { ScanPlaces(slots, at + 1, [], m - |a| - 1); }
  }

  // With the slots of an entry marked from x on, that entry is gone, and no other.
  lemma GoneShows(slots: seq<Slot>, s: nat, x: nat, at: nat, es: seq<Seen>, m: nat)
    requires WellFormed(slots) == true && Occupies(slots, s, at) && s <= x <= at
    requires es == Entries(slots) && m < |es| && es[m].at == at
    ensures Entries(Erased(slots, x, at + 1)) == Without(es, m) && es[m] == SeenFrom(slots, s, at)
  {
    var rest := Scan(slots, at + 1, []);
    PartShows(slots, s, x, at + 1, at);
    assert [] + rest == rest;
    WhichEntry(slots, s, at, es, Passed(slots, s), rest, SeenFrom(slots, s, at), m);
  }

  lemma NoOverrunKept(slots: seq<Slot>, y: nat, z: nat)
    requires NoOverrun(slots) && y <= z <= |slots|
    ensures NoOverrun(Erased(slots, y, z))
  {
    var r := Erased(slots, y, z);
    forall i | 0 <= i && i + MAX_LFN <= |r| ensures !AllLfn(r, i) {
      assert !AllLfn(slots, i);
      var j :| i <= j < i + MAX_LFN && !IsLfn(slots[j]);
      assert !IsLfn(r[j]);
    }
  }

  lemma FormKept(slots: seq<Slot>, s: nat, at: nat)
    requires WellFormed(slots) == true && Occupies(slots, s, at)
    ensures WellFormed(Erased(slots, s, at + 1)) == true
  {
    var r := Erased(slots, s, at + 1);
    NoOverrunKept(slots, s, at + 1);
    NoEnds(slots, at);
    forall i | 0 <= i < |r| ensures EndsAll(r, i) { assert EndsAll(slots, i); }
    forall i | 0 <= i < |r| ensures LeadsOn(r, i) {
      assert LeadsOn(slots, i);
      if i + 1 == s { assert !IsLfn(r[i]); }
    }
  }

  // The form is kept exactly when all slots of the entry are marked.
  lemma FormIff(slots: seq<Slot>, s: nat, x: nat, at: nat)
    requires WellFormed(slots) == true && Occupies(slots, s, at) && s <= x <= at
    ensures WellFormed(Erased(slots, x, at + 1)) <==> x == s
    ensures NoOverrun(Erased(slots, x, at + 1)) == true
  {
    var r := Erased(slots, x, at + 1);
    NoOverrunKept(slots, x, at + 1);
    if x == s {
      FormKept(slots, s, at);
    } else {
      assert IsLfn(r[x - 1]) && IsFree(r[x]);
      assert !LeadsOn(r, x - 1);
    }
  }

  // Removing an entry that robs none shows all others, each as before, in their order; the form
  // is kept exactly when all the entry's slots lie in the clusters walked over.
  lemma RemovalShows(slots: seq<Slot>, prev: nat, base: nat, s: nat, at: nat, m: nat)
    requires WellFormed(slots) == true && Occupies(slots, s, at) && prev <= base <= at && !Robs(slots, prev, base, s)
    requires m < |Entries(slots)| && Entries(slots)[m].at == at
    ensures var r := Removed(slots, prev, base, at);
      && Entries(r) == Without(Entries(slots), m) && NoOverrun(r) == true
      && (WellFormed(r) <==> s >= if at == base then prev else base)
  {
    var x := Lowest(prev, base, s, at);
    RemovalIs(slots, prev, base, s, at);
    GoneShows(slots, s, x, at, Entries(slots), m);
    FormIff(slots, s, x, at);
  }

  // ---- Robbing another entry ----

  // What an entry takes with it when its cluster begins with long-name slots of another one: the
  // slots of that one in the cluster before.
  lemma RobbingIs(slots: seq<Slot>, prev: nat, base: nat, s: nat, at: nat, t: nat)
    requires WellFormed(slots) == true && Occupies(slots, s, at) && prev <= base <= at && Robs(slots, prev, base, s)
    requires t <= base && LfnRun(slots, t, base)
    ensures Larger(t, prev) < base
    ensures Removed(slots, prev, base, at) == Erased(Erased(slots, s, at + 1), Larger(t, prev), base)
  {
    RemovedInside(slots, prev, base, s, at, t);
  }

  // An entry in front is still where it was.
  lemma OtherStays(slots: seq<Slot>, kept: seq<Slot>, t: nat, base: nat, other: nat)
    requires Occupies(slots, t, other) && t <= base <= other && |kept| == |slots|
    requires forall j :: 0 <= j <= other ==> kept[j] == slots[j]
    ensures Occupies(kept, t, other) && Passed(kept, t) == Passed(slots, t)
    ensures SeenFrom(kept, t, other) == SeenFrom(slots, t, other)
    ensures SeenFrom(kept, base, other) == SeenFrom(slots, base, other)
  {
    PassedSame(slots, kept, t);
    assert kept[t..other] == slots[t..other];
    assert kept[base..other] == slots[base..other];
  }

  // Of the first slots of an entry, up to base, the last ones marked.
  lemma CutShows(slots: seq<Slot>, t: nat, y: nat, base: nat, other: nat)
    requires WellFormed(slots) == true && Occupies(slots, t, other) && t <= y < base <= other
    ensures Renamed(Entries(slots), Entries(Erased(slots, y, base)), SeenFrom(slots, t, other),
                    SeenFrom(slots, base, other)) == true
  {
    PartShows(slots, t, y, base, other);
    RenamedBetween(Passed(slots, t), Scan(slots, other + 1, []), SeenFrom(slots, t, other),
                   SeenFrom(slots, base, other));
  }

  // es' is es with x in the place of one entry that was seen as was.
  ghost predicate Renamed(es: seq<Seen>, es': seq<Seen>, was: Seen, x: Seen) {
    exists m :: RenamedAt(es, es', was, x, m)
  }

  ghost predicate RenamedAt(es: seq<Seen>, es': seq<Seen>, was: Seen, x: Seen, m: nat) {
    m < |es| && es[m] == was && es' == es[m := x]
  }

  lemma RenamedBetween(a: seq<Seen>, b: seq<Seen>, was: Seen, x: Seen)
    ensures Renamed(a + ([was] + b), a + ([x] + b), was, x)
  {
    assert RenamedAt(a + ([was] + b), a + ([x] + b), was, x, |a|);
  }

  // The entry is gone, and the other one is seen under what is left of its name.
  lemma RobbingShows(slots: seq<Slot>, prev: nat, base: nat, s: nat, at: nat, m: nat, t: nat, other: nat)
    requires WellFormed(slots) == true && Occupies(slots, s, at) && prev <= base <= at && Robs(slots, prev, base, s)
    requires m < |Entries(slots)| && Entries(slots)[m].at == at
    requires t <= base <= other < s && Occupies(slots, t, other)
    ensures Renamed(Without(Entries(slots), m), Entries(Removed(slots, prev, base, at)), SeenFrom(slots, t, other),
                    SeenFrom(slots, base, other)) == true
  {
    var kept := Erased(slots, s, at + 1);
    RobbingIs(slots, prev, base, s, at, t);
    GoneShows(slots, s, s, at, Entries(slots), m);
    FormKept(slots, s, at);
    OtherStays(slots, kept, t, base, other);
    CutShows(kept, t, Larger(t, prev), base, other);
  }

  lemma UnitInTail(lfn: seq<Slot>, m: nat, pos: nat)
    requires m <= |lfn| && pos < 13 * m
    ensures UnitIn(lfn[|lfn| - m..], pos) == UnitIn(lfn, pos)
  {
    UnitPlace(m, pos);
    UnitPlace(|lfn|, pos);
    assert lfn[|lfn| - m..][m - 1 - pos / 13] == lfn[|lfn| - 1 - pos / 13];
  }

  lemma TailSpells(name: seq<byte>, sum: byte, m: nat, pos: nat)
    requires m < LfnCount(name) <= 20
    ensures 13 * m < |name| && SpellsAt(name[..13 * m], LfnSlots(name, LfnCount(name), sum)[LfnCount(name) - m..], pos)
  {
    if pos < 13 * m {
      UnitStored(name, sum, pos);
      UnitInTail(LfnSlots(name, LfnCount(name), sum), m, pos);
    }
  }

  // Without the first of its long-name slots, of which m are left, a long name ends early.
  lemma NameTruncated(name: seq<byte>, sum: byte, m: nat)
    requires Nameable(name) && 1 <= m < LfnCount(name) <= 20
    ensures 13 * m < |name| && Extract(LfnSlots(name, LfnCount(name), sum)[LfnCount(name) - m..], 0) == name[..13 * m]
  {
    var lfn, start := LfnSlots(name, LfnCount(name), sum)[LfnCount(name) - m..], name[..13 * m];
    forall p: nat ensures SpellsAt(start, lfn, p) { TailSpells(name, sum, m, p); }
    ExtractStored(start, lfn, 0);
    assert start[0..] == start;
  }

  lemma SliceTail(slots: seq<Slot>, t: nat, base: nat, other: nat, all: seq<Slot>)
    requires t <= base <= other <= |slots| && all == slots[t..other]
    ensures |all| == other - t && slots[base..other] == all[|all| - (other - base)..]
  {
  }

  // The other entry, when createEntry has written it: its name is cut to thirteen characters for
  // each slot that is left, or to the short name when none is.
  lemma RobbedName(slots: seq<Slot>, t: nat, base: nat, other: nat, name: seq<byte>, sum: byte, m: nat)
    requires Nameable(name) && t < base <= other < |slots| && m == other - base && LfnCount(name) <= 20
    requires slots[t..other] == LfnSlots(name, LfnCount(name), sum)
    ensures SeenFrom(slots, base, other).name
      == if m == 0 then Cut(ShortToString(slots[other][..11], slots[other][12])) else name[..13 * m]
    ensures m < LfnCount(name) && 13 * m < |name|
  {
    SliceTail(slots, t, base, other, LfnSlots(name, LfnCount(name), sum));
    if m > 0 {
      NameTruncated(name, sum, m);
      CutKeeps(name[..13 * m]);
    }
  }
}
