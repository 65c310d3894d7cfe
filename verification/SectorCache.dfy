// The 16-entry write-through LRU sector cache in front of the ATA device.
//
// The pure part gives the cache as a value with one function per access; the class at
// the end is the in-place implementation, proved to take exactly those steps.
module SectorCache {
  import opened Bytes
  import opened Finite

  const CACHE_SIZE: nat := 16

  datatype Entry = Entry(lba: nat, data: Sector, age: nat, valid: bool, dirty: bool)

  // Cache entries, the 32-bit age counter, and the device behind them.
  datatype Cache = Cache(entries: seq<Entry>, age: nat, disk: seq<Sector>)

  predicate HoldsAt(es: seq<Entry>, i: nat, lba: nat)
    requires i < |es|
  {
    es[i].valid && es[i].lba == lba
  }

  // Index of the first valid entry for lba at or after i; |es| when there is none.
  function Find(es: seq<Entry>, lba: nat, i: nat): (r: nat)
    requires i <= |es|
    ensures i <= r <= |es|
    ensures r < |es| ==> HoldsAt(es, r, lba)
    ensures forall j :: i <= j < r ==> !HoldsAt(es, j, lba)
    decreases |es| - i
  {
    if i == |es| || HoldsAt(es, i, lba) then i else Find(es, lba, i + 1)
  }

  // Index of the first invalid entry at or after i; |es| when all are valid.
  function FindEmpty(es: seq<Entry>, i: nat): (r: nat)
    requires i <= |es|
    ensures i <= r <= |es|
    ensures r < |es| ==> !es[r].valid
    ensures forall j :: i <= j < r ==> es[j].valid
    decreases |es| - i
  {
    if i == |es| || !es[i].valid then i else FindEmpty(es, i + 1)
  }

  // Index of the first entry of minimal age among es[..n].
  function Oldest(es: seq<Entry>, n: nat): (r: nat)
    requires 0 < n <= |es|
    ensures r < n
    ensures forall j :: 0 <= j < n ==> es[r].age <= es[j].age
  {
    if n == 1 then 0
    else
      var o := Oldest(es, n - 1);
      if es[n - 1].age < es[o].age then n - 1 else o
  }

  function Victim(es: seq<Entry>): (r: nat)
    requires |es| == CACHE_SIZE
    ensures r < CACHE_SIZE
  {
    var e := FindEmpty(es, 0);
    if e < |es| then e else Oldest(es, CACHE_SIZE)
  }

  // The age counter is a u32 and wraps.
  function NextAge(age: nat): (r: nat)
    ensures r < U32
  {
    (age + 1) % U32
  }

  // The device after the victim's pending data, if any, has been written back.
  function Evicted(c: Cache, v: nat): (disk: seq<Sector>)
    requires v < |c.entries|
    requires c.entries[v].valid ==> c.entries[v].lba < |c.disk|
    ensures |disk| == |c.disk|
  {
    var e := c.entries[v];
    if e.valid && e.dirty then c.disk[e.lba := e.data] else c.disk
  }

  predicate InBounds(c: Cache) {
    && |c.entries| == CACHE_SIZE
    && c.age < U32
    && forall i :: 0 <= i < CACHE_SIZE && c.entries[i].valid ==> c.entries[i].lba < |c.disk|
  }

  function ReadStep(c: Cache, lba: nat): (r: Cache)
    requires InBounds(c) && lba < |c.disk|
    ensures InBounds(r) && |r.disk| == |c.disk|
  {
    var h := Find(c.entries, lba, 0);
    if h < CACHE_SIZE then
      c.(entries := c.entries[h := c.entries[h].(age := NextAge(c.age))], age := NextAge(c.age))
    else
      var v := Victim(c.entries);
      var disk := Evicted(c, v);
      Cache(c.entries[v := Entry(lba, disk[lba], NextAge(c.age), true, false)], NextAge(c.age), disk)
  }

  // What the read hands to its caller.
  function ReadValue(c: Cache, lba: nat): (s: Sector)
    requires InBounds(c) && lba < |c.disk|
  {
    var h := Find(c.entries, lba, 0);
    if h < CACHE_SIZE then c.entries[h].data else Evicted(c, Victim(c.entries))[lba]
  }

  // A write that hits bumps the age twice: once in the lookup, once in the write.
  function WriteStep(c: Cache, lba: nat, buf: Sector): (r: Cache)
    requires InBounds(c) && lba < |c.disk|
    ensures InBounds(r) && |r.disk| == |c.disk|
  {
    var h := Find(c.entries, lba, 0);
    var age := if h < CACHE_SIZE then NextAge(NextAge(c.age)) else NextAge(c.age);
    var v := if h < CACHE_SIZE then h else Victim(c.entries);
    var disk := if h < CACHE_SIZE then c.disk else Evicted(c, v);
    Cache(c.entries[v := Entry(lba, buf, age, true, true)], age, disk[lba := buf])
  }

  // No LBA is held twice, and every cached sector is what the device holds.
  ghost predicate Coherent(c: Cache) {
    && InBounds(c)
    && (forall i :: 0 <= i < CACHE_SIZE && c.entries[i].valid ==> c.entries[i].data == c.disk[c.entries[i].lba])
    && (forall i, j :: 0 <= i < j < CACHE_SIZE && c.entries[i].valid && c.entries[j].valid
                       ==> c.entries[i].lba != c.entries[j].lba)
  }

  lemma NotHeld(c: Cache, lba: nat)
    requires InBounds(c) && Find(c.entries, lba, 0) == CACHE_SIZE
    ensures forall i :: 0 <= i < CACHE_SIZE && c.entries[i].valid ==> c.entries[i].lba != lba
  {
    forall i | 0 <= i < CACHE_SIZE && c.entries[i].valid ensures c.entries[i].lba != lba {
      assert !HoldsAt(c.entries, i, lba);
    }
  }

  lemma ReadIsFlat(c: Cache, lba: nat)
    requires Coherent(c) && lba < |c.disk|
    ensures ReadValue(c, lba) == c.disk[lba]
    ensures Coherent(ReadStep(c, lba)) && ReadStep(c, lba).disk == c.disk
  {
    var h := Find(c.entries, lba, 0);
    if h == CACHE_SIZE {
      NotHeld(c, lba);
      assert Evicted(c, Victim(c.entries)) == c.disk;
    }
  }

  lemma WriteIsFlat(c: Cache, lba: nat, buf: Sector)
    requires Coherent(c) && lba < |c.disk|
    ensures Coherent(WriteStep(c, lba, buf)) && WriteStep(c, lba, buf).disk == c.disk[lba := buf]
  {
    var h := Find(c.entries, lba, 0);
    if h == CACHE_SIZE {
      NotHeld(c, lba);
      assert Evicted(c, Victim(c.entries)) == c.disk;
    } else {
      assert HoldsAt(c.entries, h, lba);
    }
  }

  // ---- Whole access sequences ----

  datatype Access = Read(lba: nat) | Write(lba: nat, buf: Sector)

  predicate Addressed(ops: seq<Access>, n: nat) {
    forall i :: 0 <= i < |ops| ==> ops[i].lba < n
  }

  function Step(c: Cache, op: Access): (r: Cache)
    requires InBounds(c) && op.lba < |c.disk|
    ensures InBounds(r) && |r.disk| == |c.disk|
  {
    match op
    case Read(lba) => ReadStep(c, lba)
    case Write(lba, buf) => WriteStep(c, lba, buf)
  }

  function Run(c: Cache, ops: seq<Access>): (r: Cache)
    requires InBounds(c) && Addressed(ops, |c.disk|)
    ensures InBounds(r) && |r.disk| == |c.disk|
  {
    if ops == [] then c else Step(Run(c, ops[..|ops| - 1]), ops[|ops| - 1])
  }

  // The values returned by the reads of an access sequence, in order.
  function Answers(c: Cache, ops: seq<Access>): seq<Sector>
    requires InBounds(c) && Addressed(ops, |c.disk|)
  {
    if ops == [] then []
    else
      var init := ops[..|ops| - 1];
      var last := ops[|ops| - 1];
      Answers(c, init) + (if last.Read? then [ReadValue(Run(c, init), last.lba)] else [])
  }

  // The same accesses on a device with no cache.
  function FlatRun(disk: seq<Sector>, ops: seq<Access>): (r: seq<Sector>)
    requires Addressed(ops, |disk|)
    ensures |r| == |disk|
  {
    if ops == [] then disk
    else
      var d := FlatRun(disk, ops[..|ops| - 1]);
      var last := ops[|ops| - 1];
      if last.Write? then d[last.lba := last.buf] else d
  }

  function FlatAnswers(disk: seq<Sector>, ops: seq<Access>): seq<Sector>
    requires Addressed(ops, |disk|)
  {
    if ops == [] then []
    else
      var init := ops[..|ops| - 1];
      var last := ops[|ops| - 1];
      FlatAnswers(disk, init) + (if last.Read? then [FlatRun(disk, init)[last.lba]] else [])
  }

  // For every access sequence the cache is indistinguishable from the flat device.
  lemma {:induction false} CacheIsTransparent(c: Cache, ops: seq<Access>)
    requires Coherent(c) && Addressed(ops, |c.disk|)
    ensures Answers(c, ops) == FlatAnswers(c.disk, ops)
    ensures Run(c, ops).disk == FlatRun(c.disk, ops)
    ensures Coherent(Run(c, ops))
  {
    if ops != [] {
      var init, last := ops[..|ops| - 1], ops[|ops| - 1];
      CacheIsTransparent(c, init);
      match last
      case Read(lba) => ReadIsFlat(Run(c, init), lba);
      case Write(lba, buf) => WriteIsFlat(Run(c, init), lba, buf);
    }
  }

  // ---- Replacement order ----

  // The position of the last access to lba, or -1.
  function LastUse(ops: seq<Access>, lba: nat): (r: int)
    ensures -1 <= r < |ops|
    ensures r >= 0 ==> ops[r].lba == lba
    ensures forall i :: r < i < |ops| ==> ops[i].lba != lba
  {
    if ops == [] then -1
    else if ops[|ops| - 1].lba == lba then |ops| - 1
    else LastUse(ops[..|ops| - 1], lba)
  }

  // How often an access increments the age counter.
  function Bumps(c: Cache, op: Access): nat
    requires InBounds(c)
  {
    if op.Write? && Find(c.entries, op.lba, 0) < CACHE_SIZE then 2 else 1
  }

  function AgeIncrements(c: Cache, ops: seq<Access>): nat
    requires InBounds(c) && Addressed(ops, |c.disk|)
  {
    if ops == [] then 0
    else
      var init := ops[..|ops| - 1];
      AgeIncrements(c, init) + Bumps(Run(c, init), ops[|ops| - 1])
  }

  ghost predicate Held(c: Cache, lba: nat)
    requires InBounds(c)
  {
    exists i :: 0 <= i < CACHE_SIZE && HoldsAt(c.entries, i, lba)
  }

  // Entries hold used LBAs and their ages follow recency.
  ghost predicate AgesFollow(c: Cache, ops: seq<Access>)
    requires InBounds(c)
  {
    && (forall i :: 0 <= i < CACHE_SIZE && c.entries[i].valid ==>
          c.entries[i].age <= c.age && LastUse(ops, c.entries[i].lba) >= 0)
    && (forall i, j :: 0 <= i < CACHE_SIZE && 0 <= j < CACHE_SIZE && c.entries[i].valid && c.entries[j].valid
                       && LastUse(ops, c.entries[i].lba) < LastUse(ops, c.entries[j].lba)
                       ==> c.entries[i].age < c.entries[j].age)
  }

  // What was used but is no longer held is older than everything held, and nothing has
  // been dropped while an entry is still empty.
  ghost predicate DroppedAreOlder(c: Cache, ops: seq<Access>)
    requires InBounds(c)
  {
    && (forall y, i :: 0 <= i < CACHE_SIZE && c.entries[i].valid && LastUse(ops, y) >= 0 && !Held(c, y)
                       ==> LastUse(ops, y) < LastUse(ops, c.entries[i].lba))
    && (forall y, i :: 0 <= i < CACHE_SIZE && !c.entries[i].valid && LastUse(ops, y) >= 0 ==> Held(c, y))
  }

  ghost predicate ByRecency(c: Cache, ops: seq<Access>) {
    InBounds(c) && AgesFollow(c, ops) && DroppedAreOlder(c, ops)
  }

  lemma LastUseAppend(ops: seq<Access>, op: Access, y: nat)
    ensures LastUse(ops + [op], y) == if y == op.lba then |ops| else LastUse(ops, y)
  {
    assert (ops + [op])[..|ops|] == ops;
  }

  // The cache after one access: entry v is the accessed sector with the newest age.
  lemma Touched(c: Cache, op: Access) returns (v: nat, e: Entry)
    requires Coherent(c) && op.lba < |c.disk| && c.age + Bumps(c, op) < U32
    ensures v < CACHE_SIZE && e.valid && e.lba == op.lba && e.age == c.age + Bumps(c, op)
    ensures Step(c, op).entries == c.entries[v := e] && Step(c, op).age == e.age
    ensures HoldsAt(c.entries, v, op.lba) || (!Held(c, op.lba) && v == Victim(c.entries))
  {
    var h := Find(c.entries, op.lba, 0);
    v := if h < CACHE_SIZE then h else Victim(c.entries);
    e := Step(c, op).entries[v];
  }

  // An LBA other than the accessed one is held afterwards iff it was held and not the victim.
  lemma HeldAfter(c: Cache, d: Cache, v: nat, e: Entry, y: nat)
    requires InBounds(c) && InBounds(d) && v < CACHE_SIZE && d.entries == c.entries[v := e] && y != e.lba
    ensures Held(d, y) ==> Held(c, y)
    ensures Held(c, y) && !HoldsAt(c.entries, v, y) ==> Held(d, y)
  {
    if Held(d, y) {
      var i :| 0 <= i < CACHE_SIZE && HoldsAt(d.entries, i, y);
      assert HoldsAt(c.entries, i, y);
    }
    if Held(c, y) && !HoldsAt(c.entries, v, y) {
      var i :| 0 <= i < CACHE_SIZE && HoldsAt(c.entries, i, y);
      assert HoldsAt(d.entries, i, y);
    }
  }

  // The victim of a full cache is its least recently used sector.
  lemma VictimIsLeastRecent(c: Cache, ops: seq<Access>, i: nat)
    requires Coherent(c) && ByRecency(c, ops) && i < CACHE_SIZE
    requires forall k :: 0 <= k < CACHE_SIZE ==> c.entries[k].valid
    ensures var v := Victim(c.entries);
      i != v ==> LastUse(ops, c.entries[v].lba) < LastUse(ops, c.entries[i].lba)
  {
    var v := Victim(c.entries);
    assert c.entries[v].age <= c.entries[i].age;
    if i != v {
      assert c.entries[i].lba != c.entries[v].lba;
      assert LastUse(ops, c.entries[i].lba) != LastUse(ops, c.entries[v].lba);
    }
  }

  // Entry v of d is the sector just accessed, with the newest age; in c it held that
  // sector already, or was the entry chosen for replacement.
  ghost predicate Replaces(c: Cache, d: Cache, op: Access, v: nat, e: Entry) {
    && Coherent(c) && InBounds(d)
    && v < CACHE_SIZE && d.entries == c.entries[v := e] && d.age == e.age
    && e.valid && e.lba == op.lba && c.age < e.age
    && (HoldsAt(c.entries, v, op.lba) || (!Held(c, op.lba) && v == Victim(c.entries)))
  }

  lemma AgesStillFollow(c: Cache, d: Cache, ops: seq<Access>, op: Access, v: nat, e: Entry)
    requires Replaces(c, d, op, v, e) && AgesFollow(c, ops)
    ensures AgesFollow(d, ops + [op])
  {
    OthersNotAccessed(c, d, v, e);
    forall i | 0 <= i < CACHE_SIZE
      ensures LastUse(ops + [op], d.entries[i].lba)
           == if d.entries[i].lba == op.lba then |ops| else LastUse(ops, d.entries[i].lba)
    {
      LastUseAppend(ops, op, d.entries[i].lba);
    }
  }

  // A sector out of the cache was used before those in it.
  lemma DroppedBefore(c: Cache, d: Cache, ops: seq<Access>, op: Access, v: nat, e: Entry, y: nat, i: nat)
    requires Replaces(c, d, op, v, e) && ByRecency(c, ops)
    requires i < CACHE_SIZE && d.entries[i].valid && LastUse(ops + [op], y) >= 0 && !Held(d, y)
    ensures LastUse(ops + [op], y) < LastUse(ops + [op], d.entries[i].lba)
  {
    OthersNotAccessed(c, d, v, e);
    assert HoldsAt(d.entries, v, op.lba);
    LastUseAppend(ops, op, y);
    LastUseAppend(ops, op, d.entries[i].lba);
    HeldAfter(c, d, v, e, y);
    if i != v && HoldsAt(c.entries, v, y) { VictimIsLeastRecent(c, ops, i); }
  }

  lemma DroppedStillOlder(c: Cache, d: Cache, ops: seq<Access>, op: Access, v: nat, e: Entry)
    requires Replaces(c, d, op, v, e) && ByRecency(c, ops)
    ensures DroppedAreOlder(d, ops + [op])
  {
    OthersNotAccessed(c, d, v, e);
    var all := ops + [op];
    assert HoldsAt(d.entries, v, op.lba);
    forall y, i | 0 <= i < CACHE_SIZE && d.entries[i].valid && LastUse(all, y) >= 0 && !Held(d, y)
      ensures LastUse(all, y) < LastUse(all, d.entries[i].lba)
    {
      DroppedBefore(c, d, ops, op, v, e, y, i);
    }
    forall y, i | 0 <= i < CACHE_SIZE && !d.entries[i].valid && LastUse(all, y) >= 0 ensures Held(d, y) {
      if y != op.lba {
        LastUseAppend(ops, op, y);
        HeldAfter(c, d, v, e, y);
      }
    }
  }

  lemma RecencyKept(c: Cache, ops: seq<Access>, op: Access)
    requires Coherent(c) && ByRecency(c, ops) && op.lba < |c.disk| && c.age + Bumps(c, op) < U32
    ensures ByRecency(Step(c, op), ops + [op])
    ensures Step(c, op).age == c.age + Bumps(c, op)
  {
    var v, e := Touched(c, op);
    var d := Step(c, op);
    assert Replaces(c, d, op, v, e);
    AgesStillFollow(c, d, ops, op, v, e);
    DroppedStillOlder(c, d, ops, op, v, e);
  }

  lemma OthersNotAccessed(c: Cache, d: Cache, v: nat, e: Entry)
    requires Coherent(c) && v < CACHE_SIZE && d.entries == c.entries[v := e]
    requires HoldsAt(c.entries, v, e.lba) || !Held(c, e.lba)
    ensures forall i :: 0 <= i < CACHE_SIZE && i != v && d.entries[i].valid ==> d.entries[i].lba != e.lba
  {
    forall i | 0 <= i < CACHE_SIZE && i != v && d.entries[i].valid ensures d.entries[i].lba != e.lba {
      assert HoldsAt(c.entries, i, d.entries[i].lba);
    }
  }

  ghost predicate Fresh(c: Cache) {
    InBounds(c) && c.age == 0 && forall i :: 0 <= i < CACHE_SIZE ==> !c.entries[i].valid
  }

  lemma {:induction false} RunByRecency(c: Cache, ops: seq<Access>)
    requires Fresh(c) && Addressed(ops, |c.disk|) && AgeIncrements(c, ops) < U32
    ensures Coherent(Run(c, ops)) && ByRecency(Run(c, ops), ops)
    ensures Run(c, ops).age == AgeIncrements(c, ops)
  {
    CacheIsTransparent(c, ops);
    if ops != [] {
      var init, last := ops[..|ops| - 1], ops[|ops| - 1];
      RunByRecency(c, init);
      var r := Run(c, init);
      assert Run(c, ops) == Step(r, last) && AgeIncrements(c, ops) == r.age + Bumps(r, last);
      RecencyKept(r, init, last);
      assert init + [last] == ops;
    }
  }

  function Lbas(es: seq<Entry>): seq<nat> { seq(|es|, i requires 0 <= i < |es| => es[i].lba) }

  function Cached(es: seq<Entry>): set<nat> {
    set i | 0 <= i < |es| && es[i].valid :: es[i].lba
  }

  function Used(ops: seq<Access>): set<nat> {
    set i | 0 <= i < |ops| :: ops[i].lba
  }

  lemma CachedSize(c: Cache)
    requires Coherent(c)
    ensures |Cached(c.entries)| <= CACHE_SIZE
    ensures (forall i :: 0 <= i < CACHE_SIZE ==> c.entries[i].valid) ==> |Cached(c.entries)| == CACHE_SIZE
  {
    var ls := Lbas(c.entries);
    ElemsBound(ls);
    forall x | x in Cached(c.entries) ensures x in Elems(ls) {
      var i :| 0 <= i < CACHE_SIZE && c.entries[i].valid && c.entries[i].lba == x;
      assert ls[i] == x;
    }
    SubsetSize(Cached(c.entries), Elems(ls));
    if forall i :: 0 <= i < CACHE_SIZE ==> c.entries[i].valid {
      DistinctSize(ls);
      forall x | x in ls ensures x in Cached(c.entries) {
        var i :| 0 <= i < |ls| && ls[i] == x;
        assert c.entries[i].valid;
      }
      assert Cached(c.entries) == Elems(ls);
    }
  }

  // From an empty cache and until the 32-bit age counter wraps, the cache holds exactly
  // the 16 most recently used distinct LBAs, or all of them if fewer.
  lemma CacheIsLru(c: Cache, ops: seq<Access>)
    requires Fresh(c) && Addressed(ops, |c.disk|) && AgeIncrements(c, ops) < U32
    ensures var held := Cached(Run(c, ops).entries);
      && held <= Used(ops)
      && |held| == (if |Used(ops)| < CACHE_SIZE then |Used(ops)| else CACHE_SIZE)
      && forall x, y :: x in held && y in Used(ops) && y !in held ==> LastUse(ops, y) < LastUse(ops, x)
  {
    RunByRecency(c, ops);
    var r := Run(c, ops);
    CachedSize(r);
    forall y ensures y in Used(ops) <==> LastUse(ops, y) >= 0 {}
    forall y: nat ensures y in Cached(r.entries) <==> Held(r, y) { CachedIffHeld(r, y); }
    assert Cached(r.entries) <= Used(ops);
    SubsetSize(Cached(r.entries), Used(ops));
    if !(forall i :: 0 <= i < CACHE_SIZE ==> r.entries[i].valid) {
      assert Cached(r.entries) == Used(ops);
    }
  }

  // ---- The wrap of the age counter ----

  ghost predicate Positive(c: Cache)
    requires InBounds(c)
  {
    forall i :: 0 <= i < CACHE_SIZE && c.entries[i].valid ==> 0 < c.entries[i].age
  }

  lemma {:induction false} RunPositive(c: Cache, ops: seq<Access>)
    requires Fresh(c) && Addressed(ops, |c.disk|) && AgeIncrements(c, ops) < U32
    ensures Positive(Run(c, ops))
  {
    if ops != [] {
      var init, last := ops[..|ops| - 1], ops[|ops| - 1];
      RunPositive(c, init);
      RunByRecency(c, init);
      var v, e := Touched(Run(c, init), last);
    }
  }

  // The cache after an access at or past the wrap: the accessed sector has age 0 or 1.
  lemma TouchedAtWrap(c: Cache, op: Access) returns (v: nat, e: Entry)
    requires Coherent(c) && op.lba < |c.disk| && U32 <= c.age + Bumps(c, op)
    ensures v < CACHE_SIZE && e.valid && e.lba == op.lba && e.age <= 1
    ensures Step(c, op).entries == c.entries[v := e]
    ensures v == if Find(c.entries, op.lba, 0) < CACHE_SIZE then Find(c.entries, op.lba, 0) else Victim(c.entries)
    ensures HoldsAt(c.entries, v, op.lba) || !Held(c, op.lba)
  {
    var h := Find(c.entries, op.lba, 0);
    v := if h < CACHE_SIZE then h else Victim(c.entries);
    e := Step(c, op).entries[v];
  }

  // Another sector stays in the cache through an access.
  ghost predicate Rival(c: Cache, op: Access)
    requires InBounds(c)
  {
    var h := Find(c.entries, op.lba, 0);
    exists i :: 0 <= i < CACHE_SIZE && i != (if h < CACHE_SIZE then h else Victim(c.entries)) && IsRival(c.entries[i])
  }

  predicate IsRival(e: Entry) { e.valid && 0 < e.age }

  // Ages follow recency through an access exactly when it does not take the counter to its wrap.
  lemma RecencyIff(c: Cache, ops: seq<Access>, op: Access)
    requires Coherent(c) == true && ByRecency(c, ops) == true && op.lba < |c.disk| && Rival(c, op)
    ensures ByRecency(Step(c, op), ops + [op]) <==> c.age + Bumps(c, op) < U32
  {
    if c.age + Bumps(c, op) < U32 {
      RecencyKept(c, ops, op);
    } else {
      var v, e := TouchedAtWrap(c, op);
      var d := Step(c, op);
      var i :| 0 <= i < CACHE_SIZE && i != v && IsRival(c.entries[i]);
      OthersNotAccessed(c, d, v, e);
      LastUseAppend(ops, op, d.entries[i].lba);
      LastUseAppend(ops, op, e.lba);
      assert d.entries[i] == c.entries[i] && d.entries[v] == e;
      assert LastUse(ops + [op], d.entries[i].lba) < LastUse(ops + [op], d.entries[v].lba);
      assert !AgesFollow(d, ops + [op]);
    }
  }

  lemma CachedIffHeld(c: Cache, y: nat)
    requires InBounds(c)
    ensures y in Cached(c.entries) <==> Held(c, y)
  {
    if Held(c, y) {
      var i :| 0 <= i < CACHE_SIZE && HoldsAt(c.entries, i, y);
      assert c.entries[i].lba in Cached(c.entries);
    }
    if y in Cached(c.entries) {
      var i :| 0 <= i < CACHE_SIZE && c.entries[i].valid && c.entries[i].lba == y;
      assert HoldsAt(c.entries, i, y);
    }
  }

  lemma RivalIs(c: Cache, op: Access, i: nat)
    requires InBounds(c) && i < CACHE_SIZE && IsRival(c.entries[i]) && c.entries[i].lba != op.lba
    requires c.entries[i].valid ==> i != Victim(c.entries)
    ensures Rival(c, op)
  {
  }

  // In a full cache another entry than the accessed one is left; else the other sector is held.
  lemma RivalStays(c: Cache, ops: seq<Access>, op: Access, x: nat)
    requires InBounds(c) && DroppedAreOlder(c, ops) && Positive(c) && LastUse(ops, x) >= 0 && x != op.lba
    ensures Rival(c, op)
  {
    if forall i :: 0 <= i < CACHE_SIZE ==> c.entries[i].valid {
      var h := Find(c.entries, op.lba, 0);
      var i := if (if h < CACHE_SIZE then h else Victim(c.entries)) == 0 then 1 else 0;
      assert IsRival(c.entries[i]);
    } else {
      var k :| 0 <= k < CACHE_SIZE && !c.entries[k].valid;
      assert Held(c, x);
      var i :| 0 <= i < CACHE_SIZE && HoldsAt(c.entries, i, x);
      RivalIs(c, op, i);
    }
  }

  // On a run from an empty cache, once two sectors are in use, the first access that brings the
  // increments to 2^32 is the one that spoils the order.
  lemma WrapIff(c: Cache, ops: seq<Access>, op: Access, x: nat)
    requires Fresh(c) && Addressed(ops + [op], |c.disk|) && Addressed(ops, |c.disk|) && AgeIncrements(c, ops) < U32
    requires x in Used(ops) && x != op.lba
    ensures ByRecency(Run(c, ops + [op]), ops + [op]) <==> AgeIncrements(c, ops + [op]) < U32
  {
    var r := Run(c, ops);
    RunByRecency(c, ops);
    RunPositive(c, ops);
    assert (ops + [op])[..|ops|] == ops;
    assert Run(c, ops + [op]) == Step(r, op) && AgeIncrements(c, ops + [op]) == r.age + Bumps(r, op);
    RivalStays(r, ops, op, x);
    CacheIsTransparent(c, ops);
    RecencyIff(r, ops, op);
  }

  lemma OldestGoes(c: Cache, lba: nat, other: nat)
    requires Coherent(c) && c.age == U32 - 1 && Positive(c) && forall i :: 0 <= i < CACHE_SIZE ==> c.entries[i].valid
    requires lba < |c.disk| && other < |c.disk| && Held(c, lba) && !Held(c, other)
    ensures !Held(ReadStep(ReadStep(c, lba), other), lba)
  {
    var v := Find(c.entries, lba, 0);
    assert HoldsAt(c.entries, v, lba);
    var d := ReadStep(c, lba);
    ReadIsFlat(c, lba);
    assert d.entries[v].age == 0 && FindEmpty(d.entries, 0) == CACHE_SIZE;
    assert d.entries[Oldest(d.entries, CACHE_SIZE)].age <= d.entries[v].age;
    assert Victim(d.entries) == v;
    HeldAfter(c, d, v, d.entries[v], other);
    var f := Find(d.entries, other, 0);
    assert f == CACHE_SIZE;
    var r := ReadStep(d, other);
    forall i | 0 <= i < CACHE_SIZE ensures !HoldsAt(r.entries, i, lba) {
      if i != v { assert r.entries[i] == c.entries[i]; }
    }
  }

  // What that comes to: on a run that has used 16 sectors and has brought the counter to its
  // maximum, a sector that is read again is the first one to be evicted afterwards.
  lemma WrapEvictsNewest(c: Cache, ops: seq<Access>, lba: nat, other: nat)
    requires Fresh(c) && Addressed(ops, |c.disk|) && AgeIncrements(c, ops) == U32 - 1 && |Used(ops)| >= CACHE_SIZE
    requires lba < |c.disk| && other < |c.disk| && Held(Run(c, ops), lba) && !Held(Run(c, ops), other)
    ensures |Run(c, ops).disk| == |c.disk| && !Held(ReadStep(ReadStep(Run(c, ops), lba), other), lba)
  {
    var r := Run(c, ops);
    RunByRecency(c, ops);
    RunPositive(c, ops);
    CacheIsLru(c, ops);
    CachedFull(r);
    OldestGoes(r, lba, other);
  }

  lemma CachedFull(c: Cache)
    requires Coherent(c) && |Cached(c.entries)| == CACHE_SIZE
    ensures forall i :: 0 <= i < CACHE_SIZE ==> c.entries[i].valid
  {
    forall k | 0 <= k < CACHE_SIZE ensures c.entries[k].valid {
      if !c.entries[k].valid {
        var others := c.entries[..k] + c.entries[k + 1..];
        forall y | y in Cached(c.entries) ensures y in Elems(Lbas(others)) {
          var i :| 0 <= i < CACHE_SIZE && c.entries[i].valid && c.entries[i].lba == y;
          var j := if i < k then i else i - 1;
          assert others[j] == c.entries[i] && Lbas(others)[j] == y;
        }
        SubsetSize(Cached(c.entries), Elems(Lbas(others)));
        ElemsBound(Lbas(others));
      }
    }
  }

  // An access brings in no sector but its own.
  lemma OnlyAccessedEnters(c: Cache, op: Access)
    requires Coherent(c) && op.lba < |c.disk|
    ensures Cached(Step(c, op).entries) <= Cached(c.entries) + {op.lba}
  {
    var h := Find(c.entries, op.lba, 0);
    var v := if h < CACHE_SIZE then h else Victim(c.entries);
    EntryReplaced(c.entries, v, Step(c, op).entries[v]);
  }

  lemma EntryReplaced(es: seq<Entry>, v: nat, e: Entry)
    requires v < |es|
    ensures Cached(es[v := e]) <= Cached(es) + {e.lba}
  {
    var ds := es[v := e];
    forall y | y in Cached(ds) ensures y in Cached(es) + {e.lba} {
      var i :| 0 <= i < |ds| && ds[i].valid && ds[i].lba == y;
      if i != v { assert es[i].valid && es[i].lba == y; }
    }
  }

  // ---- The cache as the file system keeps it ----

  class CachedDisk {
    const cache: array<Entry>
    var cacheAge: nat
    var disk: seq<Sector>

    ghost function Abs(): Cache
      reads this, cache
    {
      Cache(cache[..], cacheAge, disk)
    }

    ghost predicate Valid()
      reads this, cache
    {
      Coherent(Abs())
    }

    constructor (sectors: seq<Sector>)
      ensures Valid() && Fresh(Abs()) && disk == sectors && fresh(cache)
    {
      cache := new Entry[CACHE_SIZE](_ => Entry(0, seq(512, _ => 0), 0, false, false));
      cacheAge := 0;
      disk := sectors;
    }

    // Index of the entry for lba, its age renewed, or CACHE_SIZE.
    method CacheLookup(lba: nat) returns (h: nat)
      requires Valid()
      modifies this`cacheAge, cache
      ensures h == Find(old(cache[..]), lba, 0) && disk == old(disk)
      ensures h < CACHE_SIZE ==>
        cacheAge == NextAge(old(cacheAge)) && cache[..] == old(cache[..])[h := old(cache[h]).(age := cacheAge)]
      ensures h == CACHE_SIZE ==> Abs() == old(Abs())
    {
      h := 0;
      while h < CACHE_SIZE
        invariant h <= CACHE_SIZE && Abs() == old(Abs())
        invariant Find(cache[..], lba, 0) == Find(cache[..], lba, h)
      {
        if cache[h].valid && cache[h].lba == lba {
          cacheAge := NextAge(cacheAge);
          cache[h] := cache[h].(age := cacheAge);
          return;
        }
        h := h + 1;
      }
    }

    // An entry free for reuse: an empty one, else the oldest, written back and invalidated.
    method CacheEvict() returns (v: nat)
      requires Valid()
      modifies this`disk, cache
      ensures v == Victim(old(cache[..])) && disk == Evicted(old(Abs()), v)
      ensures !cache[v].valid
      ensures cache[..] == old(cache[..])[v := cache[v]]
    {
      v := 0;
      while v < CACHE_SIZE
        invariant v <= CACHE_SIZE && Abs() == old(Abs())
        invariant FindEmpty(cache[..], 0) == FindEmpty(cache[..], v)
      {
        if !cache[v].valid { return; }
        v := v + 1;
      }
      v := 0;
      var i := 1;
      while i < CACHE_SIZE
        invariant 1 <= i <= CACHE_SIZE && Abs() == old(Abs())
        invariant v == Oldest(cache[..], i)
      {
        if cache[i].age < cache[v].age { v := i; }
        i := i + 1;
      }
      if cache[v].dirty {
        disk := disk[cache[v].lba := cache[v].data];
        cache[v] := cache[v].(dirty := false);
      }
      cache[v] := cache[v].(valid := false);
    }

    method CacheRead(lba: nat) returns (buf: Sector)
      requires Valid() && lba < |disk|
      modifies this, cache
      ensures Valid() && Abs() == ReadStep(old(Abs()), lba)
      ensures disk == old(disk) && buf == disk[lba]
      ensures Cached(cache[..]) <= old(Cached(cache[..])) + {lba}
    {
      OnlyAccessedEnters(Abs(), Read(lba));
      ReadIsFlat(Abs(), lba);
      var h := CacheLookup(lba);
      if h < CACHE_SIZE {
        buf := cache[h].data;
        return;
      }
      var v := CacheEvict();
      cacheAge := NextAge(cacheAge);
      cache[v] := Entry(lba, disk[lba], cacheAge, true, false);
      buf := cache[v].data;
      assert Abs().entries == ReadStep(old(Abs()), lba).entries;
    }

    method CacheWrite(lba: nat, buf: Sector)
      requires Valid() && lba < |disk|
      modifies this, cache
      ensures Valid() && Abs() == WriteStep(old(Abs()), lba, buf)
      ensures disk == old(disk)[lba := buf]
      ensures Cached(cache[..]) <= old(Cached(cache[..])) + {lba}
    {
      OnlyAccessedEnters(Abs(), Write(lba, buf));
      WriteIsFlat(Abs(), lba, buf);
      var h := CacheLookup(lba);
      if h == CACHE_SIZE { h := CacheEvict(); }
      cacheAge := NextAge(cacheAge);
      cache[h] := Entry(lba, buf, cacheAge, true, true);
      disk := disk[lba := buf];
      assert Abs().entries == WriteStep(old(Abs()), lba, buf).entries;
    }

    // A write that goes to the device behind the cache's back, as flushFat does. It keeps the
    // cache coherent exactly when the sector is not held or does not change.
    method DeviceWrite(lba: nat, buf: Sector)
      requires Valid() && lba < |disk|
      modifies this`disk
      ensures disk == old(disk)[lba := buf]
      ensures Valid() <==> lba !in Cached(cache[..]) || buf == old(disk)[lba]
    {
      disk := disk[lba := buf];
      if lba in Cached(cache[..]) {
        ghost var i :| 0 <= i < CACHE_SIZE && cache[i].valid && cache[i].lba == lba;
        assert old(cache[i].data) == old(disk)[lba];
      } else {
        assert forall i :: 0 <= i < CACHE_SIZE && cache[i].valid ==> cache[i].lba in Cached(cache[..]);
      }
    }
  }
}
