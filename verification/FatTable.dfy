/**
 The file allocation table of fs/fat/fat32.c: 32-bit words of which the low 28 bits
 are the entry.  Chains, the walk the driver makes along one, the search for a
 free cluster with its hint, and the freeing of a chain.
 */
module FatTable {
  const EOC: int := 0x0FFFFFFF
  const EOC_MIN: int := 0x0FFFFFF8
  const ENTRY: int := 0x10000000
  const PER_SECTOR: int := 128

  function Val(w: int): (v: int)
    ensures 0 <= v < 0x1000_0000 && w == w / 0x1000_0000 * 0x1000_0000 + v
  {
    w % ENTRY
  }

  /** `(w & 0xF0000000) | (v & 0x0FFFFFFF)` */
  function SetWord(w: int, v: int): (r: int)
    ensures Val(r) == Val(v) && r / ENTRY == w / ENTRY
  {
    w / ENTRY * ENTRY + v % ENTRY
  }

  /** fat32_write_fat_entry on one copy of the table. */
  function SetEntry(fat: seq<int>, c: int, v: int): (r: seq<int>)
    requires c < |fat|
    ensures |r| == |fat|
  {
    if c < 2 then fat else fat[c := SetWord(fat[c], v)]
  }

  predicate TopAt(fat: seq<int>, top: seq<int>, c: int)
    requires 0 <= c < |fat| && |top| == |fat|
  {
    fat[c] / ENTRY == top[c]
  }

  /** The top four bits of every word are `top`. */
  ghost predicate TopKept(fat: seq<int>, top: seq<int>) {
    |top| == |fat| && forall c {:trigger TopAt(fat, top, c)} :: 0 <= c < |fat| ==> TopAt(fat, top, c)
  }

  function TopBits(fat: seq<int>): (top: seq<int>)
    ensures |top| == |fat| && forall c :: 0 <= c < |fat| ==> top[c] == fat[c] / ENTRY
  {
    seq(|fat|, c requires 0 <= c < |fat| => fat[c] / ENTRY)
  }

  /** Writing an entry leaves the top bits of all words alone. */
  lemma SetKeepsTop(fat: seq<int>, top: seq<int>, c: int, v: int)
    requires TopKept(fat, top) && 0 <= c < |fat|
    ensures TopKept(SetEntry(fat, c, v), top)
  {
    forall d | 0 <= d < |fat| ensures TopAt(SetEntry(fat, c, v), top, d) { assert TopAt(fat, top, d); }
  }

  /** Writing an entry sets the low 28 bits of one word; below cluster 2 nothing is written. */
  lemma SetIs(fat: seq<int>, c: int, v: int, i: int)
    requires 0 <= c < |fat| && 0 <= i < |fat|
    ensures |SetEntry(fat, c, v)| == |fat|
    ensures SetEntry(fat, c, v)[i] ==
      if i == c && c >= 2 then fat[i] / 0x1000_0000 * 0x1000_0000 + v % 0x1000_0000 else fat[i]
  {}

  /** Every entry is free, an end mark or a cluster of the volume. */
  ghost predicate InRange(fat: seq<int>) {
    |fat| <= EOC_MIN - 1 && forall c :: 0 <= c < |fat| ==> Val(fat[c]) < |fat| || Val(fat[c]) >= EOC_MIN
  }

  predicate IsFree(fat: seq<int>, c: int) {
    2 <= c < |fat| && Val(fat[c]) == 0
  }

  // ----- Chains -----

  ghost predicate IsChain(fat: seq<int>, ch: seq<int>) {
    && |ch| > 0
    && (forall i :: 0 <= i < |ch| ==> 2 <= ch[i] < |fat|)
    && (forall i, j :: 0 <= i < j < |ch| && j == i + 1 ==> Val(fat[ch[i]]) == ch[j])
    && Val(fat[ch[|ch| - 1]]) >= EOC_MIN
  }

  /** The clusters the driver visits from `c`, at most `limit` of them. */
  function Walk(fat: seq<int>, c: int, limit: int): (w: seq<int>)
    ensures forall i :: 0 <= i < |w| ==> 0 <= w[i] < |fat|
    decreases limit
  {
    if c < 2 || c >= |fat| || limit <= 0 then []
    else if Val(fat[c]) == c || Val(fat[c]) < 2 then [c]
    else [c] + Walk(fat, Val(fat[c]), limit - 1)
  }

  /**
   A walk begins with the cluster, follows the entries, and ends at the limit, at an entry that
   leads to itself, or at one that leads to no cluster of the table.
   */
  lemma {:induction false} WalkIs(fat: seq<int>, c: int, limit: int)
    ensures var w := Walk(fat, c, limit);
      && (w == [] <==> c < 2 || c >= |fat| || limit <= 0)
      && (w != [] ==> w[0] == c && |w| <= limit)
      && (forall i, j :: 0 <= i < j < |w| && j == i + 1 ==>
            w[j] == Val(fat[w[i]]) && w[j] != w[i] && 2 <= w[i] < |fat| && 2 <= w[j] < |fat|)
      && (w != [] ==> var last := w[|w| - 1];
            |w| == limit || Val(fat[last]) == last || Val(fat[last]) < 2 || Val(fat[last]) >= |fat|)
    decreases limit
  {
    if 2 <= c < |fat| && limit > 0 { WalkIs(fat, Val(fat[c]), limit - 1); }
  }

  function Visible(ch: seq<int>, limit: int): seq<int> {
    if |ch| <= limit || limit < 0 then ch else ch[..limit]
  }

  lemma ChainTail(fat: seq<int>, ch: seq<int>)
    requires IsChain(fat, ch) && |ch| > 1
    ensures IsChain(fat, ch[1..]) && Val(fat[ch[0]]) == ch[1]
  {
    assert ch[1..][|ch| - 2] == ch[|ch| - 1];
  }

  lemma VisibleStep(ch: seq<int>, i: int, limit: int)
    requires 0 <= i < |ch| && limit > 0
    ensures Visible(ch[i..], limit) == [ch[i]] + Visible(ch[i + 1..], limit - 1)
  {}

  lemma {:induction false} WalkFrom(fat: seq<int>, ch: seq<int>, i: int, limit: int)
    requires IsChain(fat, ch) && limit >= 0 && |fat| <= EOC_MIN && 0 <= i < |ch|
    requires forall i, j :: 0 <= i < j < |ch| ==> ch[i] != ch[j]
    ensures Walk(fat, ch[i], limit) == Visible(ch[i..], limit)
    decreases limit
  {
    if limit > 0 {
      VisibleStep(ch, i, limit);
      if i == |ch| - 1 {
        assert Walk(fat, Val(fat[ch[i]]), limit - 1) == [];
        assert ch[i + 1..] == [];
      } else {
        assert Val(fat[ch[i]]) == ch[i + 1] && ch[i] != ch[i + 1];
        WalkFrom(fat, ch, i + 1, limit - 1);
      }
    }
  }

  /** On a chain of distinct clusters the walk is the chain, cut at the limit. */
  lemma WalkIsChain(fat: seq<int>, ch: seq<int>, limit: int)
    requires IsChain(fat, ch) && limit >= 0 && |fat| <= EOC_MIN
    requires forall i, j :: 0 <= i < j < |ch| ==> ch[i] != ch[j]
    ensures Walk(fat, ch[0], limit) == Visible(ch, limit)
  {
    WalkFrom(fat, ch, 0, limit);
    assert ch[0..] == ch;
  }

  lemma ChainUsed(fat: seq<int>, ch: seq<int>, i: int)
    requires IsChain(fat, ch) && 0 <= i < |ch|
    ensures Val(fat[ch[i]]) != 0
  {
    if i < |ch| - 1 { assert Val(fat[ch[i]]) == ch[i + 1]; }
  }

  /** A chain only depends on its own entries. */
  lemma ChainFrame(fat: seq<int>, fat': seq<int>, ch: seq<int>)
    requires IsChain(fat, ch) && |fat'| == |fat|
    requires forall c :: c in ch && 0 <= c < |fat| ==> Val(fat'[c]) == Val(fat[c])
    ensures IsChain(fat', ch)
  {
    forall i | 0 <= i < |ch| ensures Val(fat'[ch[i]]) == Val(fat[ch[i]]) { assert ch[i] in ch; }
  }

  /** Linking a fresh end cluster behind a chain: the step fat32_write_file repeats. */
  lemma ChainGrows(fat: seq<int>, ch: seq<int>, c: int)
    requires |fat| <= EOC_MIN && 2 <= c < |fat| && c !in ch
    requires ch == [] || (IsChain(fat, ch) && forall i :: 0 <= i < |ch| - 1 ==> ch[i] != ch[|ch| - 1])
    ensures var fat1 := SetEntry(fat, c, EOC);
      var fat2 := if ch == [] then fat1 else SetEntry(fat1, ch[|ch| - 1], c);
      IsChain(fat2, ch + [c])
  {
    var fat1 := SetEntry(fat, c, EOC);
    var fat2 := if ch == [] then fat1 else SetEntry(fat1, ch[|ch| - 1], c);
    var r := ch + [c];
    assert Val(fat1[c]) == EOC;
    forall i, j | 0 <= i < j < |r| && j == i + 1 ensures Val(fat2[r[i]]) == r[j] {
      assert r[i] == ch[i] && ch[i] in ch;
    }
    if ch != [] { assert ch[|ch| - 1] in ch; }
  }

  // ----- The allocation hint -----

  /** No sector below the hint holds a free entry. */
  ghost predicate HintOK(fat: seq<int>, hint: int) {
    0 <= hint && forall c :: 0 <= c < hint * PER_SECTOR ==> !IsFree(fat, c)
  }

  /** The lowest free cluster, or 0. */
  ghost predicate IsLowestFree(fat: seq<int>, c: int) {
    if c == 0 then forall d :: !IsFree(fat, d)
    else IsFree(fat, c) && forall d :: 0 <= d < c ==> !IsFree(fat, d)
  }

  lemma HintAfterAlloc(fat: seq<int>, hint: int, c: int, v: int)
    requires HintOK(fat, hint) && 0 <= c < |fat| && Val(v) != 0
    ensures HintOK(SetEntry(fat, c, v), hint)
  {
    forall d | 0 <= d < hint * PER_SECTOR ensures !IsFree(SetEntry(fat, c, v), d) { assert !IsFree(fat, d); }
  }

  lemma HintAfterFree(fat: seq<int>, hint: int, c: int)
    requires HintOK(fat, hint) && 2 <= c < |fat|
    ensures var sector := c * 4 / 512;
      HintOK(SetEntry(fat, c, 0), if sector < hint then sector else hint)
  {
    var sector := c * 4 / 512;
    assert sector == c / PER_SECTOR && sector * PER_SECTOR <= c;
    forall d | 0 <= d < (if sector < hint then sector else hint) * PER_SECTOR
      ensures !IsFree(SetEntry(fat, c, 0), d)
    {
      assert !IsFree(fat, d);
    }
  }

  // ----- Freeing a chain -----

  function Used(fat: seq<int>, n: int): (k: int)
    requires 0 <= n <= |fat|
    ensures 0 <= k <= n
  {
    if n == 0 then 0 else Used(fat, n - 1) + if Val(fat[n - 1]) != 0 then 1 else 0
  }

  lemma {:induction false} UsedAfterFree(fat: seq<int>, c: int, n: int)
    requires 2 <= c < |fat| && 0 <= n <= |fat|
    ensures Used(SetEntry(fat, c, 0), n) == Used(fat, n) - if c < n && Val(fat[c]) != 0 then 1 else 0
  {
    if n > 0 { UsedAfterFree(fat, c, n - 1); }
  }

  /** The table after the freeing loop of fat32_delete_file started at `c`, on any table in range. */
  ghost function Freed(fat: seq<int>, c: int): (r: seq<int>)
    requires InRange(fat)
    decreases Used(fat, |fat|), if 2 <= c < |fat| then 1 else 0
  {
    if 2 <= c < EOC_MIN && c < |fat| then
      var next := Val(fat[c]);
      UsedAfterFree(fat, c, |fat|);
      FreeKeepsRange(fat, c);
      Freed(SetEntry(fat, c, 0), next)
    else fat
  }

  lemma FreeKeepsRange(fat: seq<int>, c: int)
    requires InRange(fat) && 0 <= c < |fat|
    ensures InRange(SetEntry(fat, c, 0))
  {}

  /** Freeing a chain clears its entries and nothing else; the top bits of every word stay. */
  lemma {:induction false} FreedChain(fat: seq<int>, ch: seq<int>)
    requires InRange(fat) && IsChain(fat, ch)
    requires forall i, j :: 0 <= i < j < |ch| ==> ch[i] != ch[j]
    ensures var r := Freed(fat, ch[0]);
      && |r| == |fat|
      && (forall c :: c in ch ==> 2 <= c < |fat| && Val(r[c]) == 0)
      && (forall c :: 0 <= c < |fat| && c !in ch ==> r[c] == fat[c])
    decreases |ch|
  {
    var fat1 := SetEntry(fat, ch[0], 0);
    UsedAfterFree(fat, ch[0], |fat|);
    FreeKeepsRange(fat, ch[0]);
    if |ch| == 1 {
      assert Freed(fat1, Val(fat[ch[0]])) == fat1;
    } else {
      var rest := ch[1..];
      assert forall c :: c in ch <==> c == ch[0] || c in rest;
      assert ch[0] !in rest;
      ChainTail(fat, ch);
      ChainFrame(fat, fat1, rest);
      FreedChain(fat1, rest);
    }
  }

  // ----- How much is free -----

  /** The number of free clusters among the first `n` entries. */
  function FreeCount(fat: seq<int>, n: int): (k: int)
    requires 0 <= n <= |fat|
    ensures 0 <= k <= n
  {
    if n == 0 then 0 else FreeCount(fat, n - 1) + if IsFree(fat, n - 1) then 1 else 0
  }

  lemma {:induction false} FreeAfterSet(fat: seq<int>, c: int, v: int, n: int)
    requires 2 <= c < |fat| && 0 <= n <= |fat|
    ensures FreeCount(SetEntry(fat, c, v), n) ==
      FreeCount(fat, n) + if c >= n || IsFree(fat, c) == (Val(v) == 0) then 0 else if Val(v) == 0 then 1 else -1
  {
    if n > 0 { FreeAfterSet(fat, c, v, n - 1); }
  }

  lemma {:induction false} NoneFree(fat: seq<int>, n: int)
    requires 0 <= n <= |fat|
    ensures FreeCount(fat, n) == 0 <==> forall c :: 0 <= c < n ==> !IsFree(fat, c)
  {
    if n > 0 { NoneFree(fat, n - 1); }
  }

  predicate Cluster(fat: seq<int>, c: int) { 2 <= c < |fat| }

  /** Entry `i` is as before, or free with its top bits as before. */
  predicate KeptOrFreed(fat: seq<int>, fat': seq<int>, i: int)
    requires 0 <= i < |fat| == |fat'|
  {
    fat'[i] == fat[i] || fat'[i] == fat[i] / 0x1000_0000 * 0x1000_0000
  }

  /** The entry that entry `i` leads to is free if entry `i` was freed. */
  predicate FreedOn(fat: seq<int>, fat': seq<int>, i: int)
    requires 0 <= i < |fat| == |fat'|
  {
    Val(fat[i]) != 0 && Val(fat'[i]) == 0 && Cluster(fat, Val(fat[i])) ==> Val(fat'[Val(fat[i])]) == 0
  }

  /** On any table, cyclic or not, the freeing loop frees its first cluster and whatever a freed one leads to ... */
  lemma {:induction false} FreedReaches(fat: seq<int>, c: int)
    requires InRange(fat)
    ensures var r := Freed(fat, c);
      && |r| == |fat| && (Cluster(fat, c) ==> Val(r[c]) == 0)
      && (forall i {:trigger KeptOrFreed(fat, r, i)} :: 0 <= i < |fat| ==> KeptOrFreed(fat, r, i))
      && forall i {:trigger FreedOn(fat, r, i)} :: 0 <= i < |fat| ==> FreedOn(fat, r, i)
    decreases Used(fat, |fat|), if 2 <= c < |fat| then 1 else 0
  {
    if Cluster(fat, c) {
      UsedAfterFree(fat, c, |fat|);
      FreeKeepsRange(fat, c);
      var fat1, next := SetEntry(fat, c, 0), Val(fat[c]);
      FreedReaches(fat1, next);
      var r := Freed(fat1, next);
      forall i | 0 <= i < |fat| ensures KeptOrFreed(fat, r, i) { assert KeptOrFreed(fat1, r, i); }
      assert KeptOrFreed(fat1, r, c);
      forall i | 0 <= i < |fat| ensures FreedOn(fat, r, i) { if i != c { assert FreedOn(fat1, r, i); } }
    }
  }

  /** ... and nothing outside any set of clusters that holds the first and is closed under the links. */
  lemma {:induction false} FreedOnly(fat: seq<int>, c: int, P: set<int>)
    requires InRange(fat) && (Cluster(fat, c) ==> c in P)
    requires forall i :: i in P && Cluster(fat, i) && Cluster(fat, Val(fat[i])) ==> Val(fat[i]) in P
    ensures |Freed(fat, c)| == |fat| && forall i :: 0 <= i < |fat| && i !in P ==> Freed(fat, c)[i] == fat[i]
    decreases Used(fat, |fat|), if 2 <= c < |fat| then 1 else 0
  {
    if Cluster(fat, c) {
      UsedAfterFree(fat, c, |fat|);
      FreeKeepsRange(fat, c);
      FreedOnly(SetEntry(fat, c, 0), Val(fat[c]), P);
    }
  }

  /** Freeing a chain frees as many clusters as it has. */
  lemma {:induction false} FreedCount(fat: seq<int>, ch: seq<int>)
    requires InRange(fat) && IsChain(fat, ch)
    requires forall i, j :: 0 <= i < j < |ch| ==> ch[i] != ch[j]
    ensures |Freed(fat, ch[0])| == |fat| && FreeCount(Freed(fat, ch[0]), |fat|) == FreeCount(fat, |fat|) + |ch|
    decreases |ch|
  {
    var fat1 := SetEntry(fat, ch[0], 0);
    UsedAfterFree(fat, ch[0], |fat|);
    FreeKeepsRange(fat, ch[0]);
    FreeAfterSet(fat, ch[0], 0, |fat|);
    ChainUsed(fat, ch, 0);
    if |ch| == 1 {
      assert Freed(fat1, Val(fat[ch[0]])) == fat1;
    } else {
      ChainTail(fat, ch);
      ChainFrame(fat, fat1, ch[1..]);
      FreedCount(fat1, ch[1..]);
    }
  }
}
