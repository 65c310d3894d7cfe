// The file allocation table as a map from a cluster to the next one: chains, first-fit
// allocation and chain freeing.
module FatChains {
  import opened Finite

  const FAT_FREE: nat := 0
  const FAT_BAD: nat := 0x0FFF_FFF7
  const FAT_EOC: nat := 0x0FFF_FFF8

  // Entries are 28 bits wide and cluster numbers stay below the bad-cluster mark.
  ghost predicate Table(fat: seq<nat>) {
    |fat| <= FAT_BAD && forall c :: 0 <= c < |fat| ==> fat[c] < 0x1000_0000
  }

  lemma EntryFits(n: nat)
    requires n < 0x1000_0000
    ensures n % 0x1000_0000 == n
  {
  }

  predicate InRange(fat: seq<nat>, c: nat) {
    2 <= c < |fat|
  }

  // cs is a whole cluster chain: in range, without repetition, linked, ended by an end mark.
  ghost predicate IsChain(fat: seq<nat>, cs: seq<nat>) {
    && (forall i :: 0 <= i < |cs| ==> InRange(fat, cs[i]))
    && Distinct(cs)
    && (forall i :: 0 <= i < |cs| - 1 ==> fat[cs[i]] == cs[i + 1])
    && (cs != [] ==> fat[cs[|cs| - 1]] >= FAT_EOC)
  }

  // A file's chain as its directory entry names it: none when the start is below 2.
  ghost predicate FileChain(fat: seq<nat>, start: nat, cs: seq<nat>) {
    IsChain(fat, cs) && (if cs == [] then start < 2 else start == cs[0])
  }

  function FreeClusters(fat: seq<nat>): set<nat> {
    set c | 2 <= c < |fat| && fat[c] == FAT_FREE
  }

  // ---- Following links ----

  function Next(fat: seq<nat>, c: nat): nat {
    if InRange(fat, c) then fat[c] else c
  }

  // The cluster reached from c in n steps; a value out of range stays where it is.
  function Nth(fat: seq<nat>, c: nat, n: nat): nat {
    if n == 0 then c else Next(fat, Nth(fat, c, n - 1))
  }

  ghost predicate Reaches(fat: seq<nat>, start: nat, c: nat) {
    InRange(fat, c) && exists n: nat :: Nth(fat, start, n) == c
  }

  // fat' is fat with exactly the clusters reachable from start freed.
  ghost predicate FreedFrom(fat: seq<nat>, start: nat, fat': seq<nat>) {
    |fat'| == |fat| && forall c :: 0 <= c < |fat| ==> fat'[c] == if Reaches(fat, start, c) then FAT_FREE else fat[c]
  }

  function Cleared(fat: seq<nat>, s: set<nat>): (r: seq<nat>)
    ensures |r| == |fat| && forall c :: 0 <= c < |fat| ==> r[c] == if c in s then FAT_FREE else fat[c]
  {
    seq(|fat|, c requires 0 <= c < |fat| => if c in s then FAT_FREE else fat[c])
  }

  lemma {:induction false} ReachedStaysInside(fat: seq<nat>, start: nat, s: set<nat>, n: nat)
    requires InRange(fat, start) ==> start in s
    requires forall c :: c in s ==> InRange(fat, c) && (InRange(fat, fat[c]) ==> fat[c] in s)
    ensures InRange(fat, Nth(fat, start, n)) ==> Nth(fat, start, n) in s
  {
    if n > 0 { ReachedStaysInside(fat, start, s, n - 1); }
  }

  // Progress of freeChain: freed clusters are reachable, and what they link to is freed
  // already, is the cluster at hand, or is out of range.
  ghost predicate Freeing(fat: seq<nat>, start: nat, freed: set<nat>, cluster: nat) {
    && (forall c :: c in freed ==> Reaches(fat, start, c))
    && (InRange(fat, start) ==> start in freed || cluster == start)
    && (forall c :: c in freed && InRange(fat, c) && InRange(fat, fat[c]) ==> fat[c] in freed || fat[c] == cluster)
    && (InRange(fat, cluster) ==> Reaches(fat, start, cluster))
  }

  lemma FreeingStart(fat: seq<nat>, start: nat)
    ensures Freeing(fat, start, {}, start) && Cleared(fat, {}) == fat
  {
    assert Nth(fat, start, 0) == start;
  }

  // One more cluster freed. On a cycle the link read back is that of a cluster already freed.
  lemma FreeingStep(fat: seq<nat>, start: nat, freed: set<nat>, cluster: nat)
    requires Freeing(fat, start, freed, cluster) && InRange(fat, cluster)
    ensures Freeing(fat, start, freed + {cluster}, Cleared(fat, freed)[cluster])
  {
    var n: nat :| Nth(fat, start, n) == cluster;
    assert Nth(fat, start, n + 1) == fat[cluster];
  }

  lemma FreeingDone(fat: seq<nat>, start: nat, freed: set<nat>, cluster: nat)
    requires Freeing(fat, start, freed, cluster) && !InRange(fat, cluster)
    ensures FreedFrom(fat, start, Cleared(fat, freed))
  {
    forall c | Reaches(fat, start, c) ensures c in freed {
      var n: nat :| Nth(fat, start, n) == c;
      ReachedStaysInside(fat, start, freed, n);
    }
  }

  // The first free cluster at or after i; |fat| when there is none.
  function FirstFree(fat: seq<nat>, i: nat): (r: nat)
    requires i <= |fat|
    ensures i <= r <= |fat|
    ensures r < |fat| ==> fat[r] == FAT_FREE
    ensures forall j :: i <= j < r ==> fat[j] != FAT_FREE
    decreases |fat| - i
  {
    if i == |fat| || fat[i] == FAT_FREE then i else FirstFree(fat, i + 1)
  }

  // ---- Chains ----

  lemma {:induction false} ChainNth(fat: seq<nat>, cs: seq<nat>, n: nat)
    requires IsChain(fat, cs) && Table(fat) && n < |cs|
    ensures Nth(fat, cs[0], n) == cs[n]
  {
    if n > 0 { ChainNth(fat, cs, n - 1); }
  }

  // What freeing reaches from the head of a chain is that chain.
  lemma ChainReached(fat: seq<nat>, cs: seq<nat>)
    requires IsChain(fat, cs) && Table(fat) && cs != []
    ensures forall c :: Reaches(fat, cs[0], c) <==> c in cs
  {
    forall c | c in cs ensures Reaches(fat, cs[0], c) {
      var i :| 0 <= i < |cs| && cs[i] == c;
      ChainNth(fat, cs, i);
    }
    forall c | Reaches(fat, cs[0], c) ensures c in cs {
      var n: nat :| Nth(fat, cs[0], n) == c;
      forall d | d in Elems(cs) ensures InRange(fat, d) && (InRange(fat, fat[d]) ==> fat[d] in Elems(cs)) {
        var i :| 0 <= i < |cs| && cs[i] == d;
        if i < |cs| - 1 { assert fat[cs[i]] == cs[i + 1]; }
      }
      ReachedStaysInside(fat, cs[0], Elems(cs), n);
    }
  }

  // A chain survives any change to entries outside it.
  lemma ChainFrame(fat: seq<nat>, fat': seq<nat>, cs: seq<nat>)
    requires IsChain(fat, cs) && |fat'| == |fat|
    requires forall i :: 0 <= i < |cs| ==> fat'[cs[i]] == fat[cs[i]]
    ensures IsChain(fat', cs)
  {
  }

  lemma ChainNotFree(fat: seq<nat>, cs: seq<nat>, c: nat)
    requires IsChain(fat, cs) && c in cs
    ensures InRange(fat, c) && fat[c] != FAT_FREE
  {
    var i :| 0 <= i < |cs| && cs[i] == c;
    if i < |cs| - 1 { assert fat[cs[i]] == cs[i + 1]; }
  }

  // Allocating a free cluster and linking it after the last one extends the chain.
  lemma ChainExtended(fat: seq<nat>, cs: seq<nat>, n: nat)
    requires IsChain(fat, cs) && n in FreeClusters(fat)
    ensures n !in cs
    ensures var fat1 := fat[n := FAT_EOC];
      IsChain(if cs == [] then fat1 else fat1[cs[|cs| - 1] := n], cs + [n])
  {
    if n in cs { ChainNotFree(fat, cs, n); }
    var fat1 := fat[n := FAT_EOC];
    if cs == [] {
      assert IsChain(fat1, [n]);
      assert cs + [n] == [n];
    } else {
      var fat2, ds := fat1[cs[|cs| - 1] := n], cs + [n];
      forall i | 0 <= i < |ds| - 1 ensures fat2[ds[i]] == ds[i + 1] {
        if i < |cs| - 1 { assert ds[i] == cs[i] != cs[|cs| - 1] && fat[cs[i]] == cs[i + 1]; }
      }
    }
  }

  // Ending the chain after k clusters leaves a k-cluster chain and, apart from it, the tail.
  lemma ChainCut(fat: seq<nat>, cs: seq<nat>, k: nat)
    requires IsChain(fat, cs) && 0 < k <= |cs|
    ensures var fat' := fat[cs[k - 1] := FAT_EOC]; IsChain(fat', cs[..k]) && IsChain(fat', cs[k..])
    ensures k < |cs| ==> fat[cs[k - 1]] == cs[k]
    ensures k == |cs| ==> fat[cs[k - 1]] >= FAT_EOC
  {
    var fat' := fat[cs[k - 1] := FAT_EOC];
    var head, tail := cs[..k], cs[k..];
    forall i | 0 <= i < |head| - 1 ensures fat'[head[i]] == head[i + 1] {
      assert fat[cs[i]] == cs[i + 1];
    }
    forall i | 0 <= i < |tail| - 1 ensures fat'[tail[i]] == tail[i + 1] {
      assert fat[cs[k + i]] == cs[k + i + 1];
    }
    if tail != [] { assert tail[|tail| - 1] == cs[|cs| - 1]; }
  }
}
