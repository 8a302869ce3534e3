/**
 The kernel heap as a value: the blocks that tile the heap in address order, the
 two pure steps `kmalloc` and `kfree` perform on them, and what every run of
 those steps keeps.  `Heap.dfy` proves the linked, in-place code against this.
 */
module HeapSpec {
  const HEAP_START: int := 0x10000000
  const HEAP_SIZE: int := 0x40000000
  const HEAP_END: int := HEAP_START + HEAP_SIZE
  const HEADER: int := 28
  const NUM_BINS: int := 16
  const WORD: int := 0x1_0000_0000

  datatype Block = Block(addr: int, size: int, free: bool)

  function BinIndex(size: int): (b: int)
    ensures 0 <= b < NUM_BINS
  {
    if size <= 32 then 0
    else if size <= 64 then 1
    else if size <= 128 then 2
    else if size <= 256 then 3
    else if size <= 512 then 4
    else if size <= 1024 then 5
    else if size <= 2048 then 6
    else if size <= 4096 then 7
    else if size <= 8192 then 8
    else if size <= 16384 then 9
    else if size <= 32768 then 10
    else if size <= 65536 then 11
    else if size <= 131072 then 12
    else if size <= 262144 then 13
    else if size <= 524288 then 14
    else 15
  }

  /** `size` rounded up to a multiple of four in 32-bit arithmetic. */
  function Rounded(size: int): (r: int)
    requires 0 <= size < WORD
    ensures 0 <= r < WORD && r % 4 == 0
    ensures size <= r <==> size <= 0xFFFFFFFC
    ensures if size <= 0xFFFFFFFC then r < size + 4 else r == 0
  {
    if size % 4 != 0 then (size + (4 - size % 4)) % WORD else size
  }

  // ----- The invariant -----

  ghost predicate Tiles(bs: seq<Block>) {
    && |bs| > 0
    && bs[0].addr == HEAP_START
    && (forall i :: 0 <= i < |bs| ==> 0 <= bs[i].size)
    && (forall i, j :: 0 <= i < j < |bs| && j == i + 1 ==> bs[j].addr == bs[i].addr + HEADER + bs[i].size)
    && bs[|bs| - 1].addr + HEADER + bs[|bs| - 1].size == HEAP_END
  }

  ghost predicate Coalesced(bs: seq<Block>) {
    forall i, j :: 0 <= i < j < |bs| && j == i + 1 ==> !(bs[i].free && bs[j].free)
  }

  ghost predicate Inv(bs: seq<Block>) {
    Tiles(bs) && Coalesced(bs)
  }

  const Initial: seq<Block> := [Block(HEAP_START, HEAP_SIZE - HEADER, true)]

  const USED: int := -1

  /** The free list a block belongs on, or `USED`. */
  function Kind(b: Block): int {
    if b.free then BinIndex(b.size) else USED
  }

  function AddrsTo(bs: seq<Block>, n: int, kind: int): set<int>
    requires 0 <= n <= |bs|
  {
    if n == 0 then {} else AddrsTo(bs, n - 1, kind) + (if Kind(bs[n - 1]) == kind then {bs[n - 1].addr} else {})
  }

  /** The header addresses of the blocks of one kind. */
  function Addrs(bs: seq<Block>, kind: int): set<int> {
    AddrsTo(bs, |bs|, kind)
  }

  function Footprint(bs: seq<Block>): (total: int) {
    if bs == [] then 0 else HEADER + bs[0].size + Footprint(bs[1..])
  }

  function UsedBytes(bs: seq<Block>): int {
    if bs == [] then 0 else (if bs[0].free then 0 else bs[0].size) + UsedBytes(bs[1..])
  }

  function FreeBytes(bs: seq<Block>): int {
    if bs == [] then 0 else (if bs[0].free then bs[0].size else 0) + FreeBytes(bs[1..])
  }

  // ----- The two steps -----

  predicate Fits(b: Block, n: int) {
    b.free && b.size >= n
  }

  function Mark(bs: seq<Block>, k: int, free: bool): (r: seq<Block>)
    requires 0 <= k < |bs|
    ensures |r| == |bs|
  {
    bs[k := bs[k].(free := free)]
  }

  function SplitAt(bs: seq<Block>, k: int, n: int): (r: seq<Block>)
    requires 0 <= k < |bs|
    ensures |r| == |bs| + 1
  {
    var b := bs[k];
    bs[..k] + [b.(size := n), Block(b.addr + HEADER + n, b.size - n - HEADER, true)] + bs[k + 1..]
  }

  /** kmalloc: block `k` becomes used, and its tail a free block when that is worth it. */
  function AllocAt(bs: seq<Block>, k: int, n: int): seq<Block>
    requires 0 <= k < |bs|
  {
    if bs[k].size > n + HEADER + 16 then SplitAt(Mark(bs, k, false), k, n) else Mark(bs, k, false)
  }

  /** Absorbs block `k + 1` into block `k`. */
  function Absorb(bs: seq<Block>, k: int): (r: seq<Block>)
    requires 0 <= k < |bs| - 1
    ensures |r| == |bs| - 1
  {
    bs[..k] + [bs[k].(size := bs[k].size + HEADER + bs[k + 1].size)] + bs[k + 2..]
  }

  /** The absorbed neighbours count as used while they are off the free lists. */
  function MergeRight(bs: seq<Block>, k: int): (r: seq<Block>)
    requires 0 <= k < |bs|
    ensures k < |r|
  {
    if k + 1 < |bs| && bs[k + 1].free then Absorb(Mark(bs, k + 1, false), k) else bs
  }

  function MergeLeft(bs: seq<Block>, k: int): seq<Block>
    requires 0 <= k < |bs|
  {
    if k > 0 && bs[k - 1].free then Mark(Absorb(Mark(bs, k - 1, false), k - 1), k - 1, true)
    else Mark(bs, k, true)
  }

  /** kfree: block `k` is merged with its free neighbours into one free block. */
  function FreeAt(bs: seq<Block>, k: int): seq<Block>
    requires 0 <= k < |bs|
  {
    MergeLeft(MergeRight(bs, k), k)
  }

  // ----- What the steps keep -----

  lemma BinMonotone(a: int, b: int)
    requires a <= b
    ensures BinIndex(a) <= BinIndex(b)
  {}

  lemma {:induction false} Ordered(bs: seq<Block>, i: int, j: int)
    requires Tiles(bs) && 0 <= i < j < |bs|
    ensures bs[i].addr + HEADER + bs[i].size <= bs[j].addr
    decreases j - i
  {
    if i + 1 < j {
      Ordered(bs, i, j - 1);
      assert bs[j - 1 + 1].addr == bs[j - 1].addr + HEADER + bs[j - 1].size;
    }
  }

  lemma {:induction false} Bounds(bs: seq<Block>, i: int)
    requires Tiles(bs) && 0 <= i < |bs|
    ensures HEAP_START <= bs[i].addr && bs[i].addr + HEADER + bs[i].size <= HEAP_END
  {
    if i > 0 { Ordered(bs, 0, i); }
    if i < |bs| - 1 { Ordered(bs, i, |bs| - 1); }
  }

  /** Payloads of distinct blocks never overlap. */
  lemma PayloadsDisjoint(bs: seq<Block>, i: int, j: int, x: int)
    requires Tiles(bs) && 0 <= i < |bs| && 0 <= j < |bs| && i != j
    requires bs[i].addr + HEADER <= x < bs[i].addr + HEADER + bs[i].size
    ensures !(bs[j].addr + HEADER <= x < bs[j].addr + HEADER + bs[j].size)
  {
    if i < j { Ordered(bs, i, j); } else { Ordered(bs, j, i); }
  }

  lemma {:induction false} FootprintFrom(bs: seq<Block>, i: int)
    requires Tiles(bs) && 0 <= i < |bs|
    ensures Footprint(bs[i..]) == HEAP_END - bs[i].addr
    decreases |bs| - i
  {
    assert bs[i..][1..] == bs[i + 1..];
    if i < |bs| - 1 {
      FootprintFrom(bs, i + 1);
    } else {
      assert bs[i + 1..] == [];
    }
  }

  lemma {:induction false} FootprintParts(bs: seq<Block>)
    ensures Footprint(bs) == UsedBytes(bs) + FreeBytes(bs) + HEADER * |bs|
  {
    if bs != [] { FootprintParts(bs[1..]); }
  }

  /** Used bytes, free bytes and headers account for every byte of the heap. */
  lemma TilesExactly(bs: seq<Block>)
    requires Tiles(bs)
    ensures UsedBytes(bs) + FreeBytes(bs) + HEADER * |bs| == HEAP_SIZE
  {
    FootprintParts(bs);
    FootprintFrom(bs, 0);
    assert bs[0..] == bs;
  }

  lemma SplitIndex(bs: seq<Block>, k: int, n: int, i: int)
    requires 0 <= k < |bs| && 0 <= i < |bs| + 1
    ensures SplitAt(bs, k, n)[i] ==
      if i < k then bs[i]
      else if i == k then bs[k].(size := n)
      else if i == k + 1 then Block(bs[k].addr + HEADER + n, bs[k].size - n - HEADER, true)
      else bs[i - 1]
  {}

  lemma SplitKeepsTiles(bs: seq<Block>, k: int, n: int)
    requires Tiles(bs) && 0 <= k < |bs| && 0 <= n && bs[k].size >= n + HEADER
    ensures Tiles(SplitAt(bs, k, n))
  {
    var r := SplitAt(bs, k, n);
    forall i | 0 <= i < |r| ensures 0 <= r[i].size { SplitIndex(bs, k, n, i); }
    forall i, j | 0 <= i < j < |r| && j == i + 1 ensures r[j].addr == r[i].addr + HEADER + r[i].size {
      SplitIndex(bs, k, n, i);
      SplitIndex(bs, k, n, j);
    }
    SplitIndex(bs, k, n, 0);
    SplitIndex(bs, k, n, |r| - 1);
  }

  lemma SplitKeepsCoalesced(bs: seq<Block>, k: int, n: int)
    requires Coalesced(bs) && 0 <= k < |bs| && !bs[k].free && (k + 1 < |bs| ==> !bs[k + 1].free)
    ensures Coalesced(SplitAt(bs, k, n))
  {
    var r := SplitAt(bs, k, n);
    forall i, j | 0 <= i < j < |r| && j == i + 1 ensures !(r[i].free && r[j].free) {
      SplitIndex(bs, k, n, i);
      SplitIndex(bs, k, n, j);
    }
  }

  lemma AllocKeepsInv(bs: seq<Block>, k: int, n: int)
    requires Inv(bs) && 0 <= k < |bs| && 0 <= n && Fits(bs[k], n)
    ensures Inv(AllocAt(bs, k, n))
  {
    var used := Mark(bs, k, false);
    assert Inv(used) && (k + 1 < |bs| ==> !used[k + 1].free);
    if bs[k].size > n + HEADER + 16 {
      SplitKeepsTiles(used, k, n);
      SplitKeepsCoalesced(used, k, n);
    }
  }

  lemma AbsorbIndex(bs: seq<Block>, k: int, i: int)
    requires 0 <= k < |bs| - 1 && 0 <= i < |bs| - 1
    ensures Absorb(bs, k)[i] ==
      if i < k then bs[i]
      else if i == k then bs[k].(size := bs[k].size + HEADER + bs[k + 1].size)
      else bs[i + 1]
  {}

  lemma AbsorbKeepsTiles(bs: seq<Block>, k: int)
    requires Tiles(bs) && 0 <= k < |bs| - 1
    ensures Tiles(Absorb(bs, k))
  {
    var r := Absorb(bs, k);
    forall i | 0 <= i < |r| ensures 0 <= r[i].size { AbsorbIndex(bs, k, i); }
    forall i, j | 0 <= i < j < |r| && j == i + 1 ensures r[j].addr == r[i].addr + HEADER + r[i].size {
      AbsorbIndex(bs, k, i);
      AbsorbIndex(bs, k, j);
      assert i == k ==> bs[k + 1].addr == bs[k].addr + HEADER + bs[k].size;
    }
    AbsorbIndex(bs, k, 0);
    AbsorbIndex(bs, k, |r| - 1);
    assert bs[k + 1].addr == bs[k].addr + HEADER + bs[k].size;
  }

  lemma AbsorbKeepsCoalesced(bs: seq<Block>, k: int)
    requires Coalesced(bs) && 0 <= k < |bs| - 1 && !bs[k].free
    ensures Coalesced(Absorb(bs, k))
  {
    var r := Absorb(bs, k);
    forall i, j | 0 <= i < j < |r| && j == i + 1 ensures !(r[i].free && r[j].free) {
      AbsorbIndex(bs, k, i);
      AbsorbIndex(bs, k, j);
    }
  }

  ghost predicate RightUsed(bs: seq<Block>, k: int) {
    k + 1 < |bs| && 0 <= k + 1 ==> !bs[k + 1].free
  }

  lemma MergeRightKeepsInv(bs: seq<Block>, k: int)
    requires Inv(bs) && 0 <= k < |bs| && !bs[k].free
    ensures var r := MergeRight(bs, k);
      Inv(r) && !r[k].free && r[k].addr == bs[k].addr && RightUsed(r, k) && (k > 0 ==> r[k - 1] == bs[k - 1])
  {
    if k + 1 < |bs| && bs[k + 1].free {
      var m := Mark(bs, k + 1, false);
      assert Inv(m) && RightUsed(m, k + 1);
      AbsorbKeepsTiles(m, k);
      AbsorbKeepsCoalesced(m, k);
      AbsorbIndex(m, k, k);
      if k + 2 < |bs| { AbsorbIndex(m, k, k + 1); }
      if k > 0 { AbsorbIndex(m, k, k - 1); }
    }
  }

  lemma MarkFreeKeepsInv(bs: seq<Block>, k: int)
    requires Inv(bs) && 0 <= k < |bs| && RightUsed(bs, k) && (k > 0 ==> !bs[k - 1].free)
    ensures Inv(Mark(bs, k, true))
  {}

  lemma MarkUsedKeepsInv(bs: seq<Block>, k: int)
    requires Inv(bs) && 0 <= k < |bs|
    ensures Inv(Mark(bs, k, false))
  {}

  /** Absorbing block `k` into the block on its left, just taken off its free list. */
  lemma AbsorbLeftKeepsInv(bs: seq<Block>, k: int)
    requires Inv(bs) && 0 < k < |bs| && !bs[k].free && RightUsed(bs, k) && bs[k - 1].free
    ensures var r := Absorb(Mark(bs, k - 1, false), k - 1);
      Inv(r) && RightUsed(r, k - 1) && !r[k - 1].free && r[k - 1].addr == bs[k - 1].addr
      && (k > 1 ==> r[k - 2] == bs[k - 2] && !r[k - 2].free)
  {
    var m := Mark(bs, k - 1, false);
    MarkUsedKeepsInv(bs, k - 1);
    AbsorbKeepsTiles(m, k - 1);
    AbsorbKeepsCoalesced(m, k - 1);
    AbsorbIndex(m, k - 1, k - 1);
    if k > 1 { AbsorbIndex(m, k - 1, k - 2); }
    if k + 1 < |bs| { AbsorbIndex(m, k - 1, k); }
  }

  lemma MergeLeftKeepsInv(bs: seq<Block>, k: int)
    requires Inv(bs) && 0 <= k < |bs| && !bs[k].free && RightUsed(bs, k)
    ensures Inv(MergeLeft(bs, k))
  {
    if k > 0 && bs[k - 1].free {
      AbsorbLeftKeepsInv(bs, k);
      MarkFreeKeepsInv(Absorb(Mark(bs, k - 1, false), k - 1), k - 1);
    } else {
      MarkFreeKeepsInv(bs, k);
    }
  }

  lemma FreeKeepsInv(bs: seq<Block>, k: int)
    requires Inv(bs) && 0 <= k < |bs| && !bs[k].free
    ensures Inv(FreeAt(bs, k))
  {
    MergeRightKeepsInv(bs, k);
    MergeLeftKeepsInv(MergeRight(bs, k), k);
  }

  lemma AbsorbUndoesSplit(bs: seq<Block>, k: int, n: int)
    requires 0 <= k < |bs|
    ensures Absorb(Mark(SplitAt(bs, k, n), k + 1, false), k) == bs
  {
    var m := Mark(SplitAt(bs, k, n), k + 1, false);
    forall i | 0 <= i < |bs| ensures Absorb(m, k)[i] == bs[i] {
      AbsorbIndex(m, k, i);
      SplitIndex(bs, k, n, i);
      SplitIndex(bs, k, n, i + 1);
    }
  }

  /** `kfree` directly after `kmalloc` restores the block layout exactly. */
  lemma FreeUndoesAlloc(bs: seq<Block>, k: int, n: int)
    requires Coalesced(bs) && 0 <= k < |bs| && Fits(bs[k], n)
    ensures FreeAt(AllocAt(bs, k, n), k) == bs
  {
    var used := Mark(bs, k, false);
    if bs[k].size > n + HEADER + 16 {
      AbsorbUndoesSplit(used, k, n);
    }
    assert MergeRight(AllocAt(bs, k, n), k) == used;
    assert Mark(used, k, true) == bs;
  }

  // ----- Addresses by kind -----

  lemma {:induction false} AddrsToPrefix(a: seq<Block>, b: seq<Block>, n: int, kind: int)
    requires 0 <= n <= |a|
    ensures AddrsTo(a + b, n, kind) == AddrsTo(a, n, kind)
  {
    if n > 0 { AddrsToPrefix(a, b, n - 1, kind); }
  }

  lemma {:induction false} AddrsToConcat(a: seq<Block>, b: seq<Block>, n: int, kind: int)
    requires 0 <= n <= |b|
    ensures AddrsTo(a + b, |a| + n, kind) == Addrs(a, kind) + AddrsTo(b, n, kind)
  {
    if n == 0 { AddrsToPrefix(a, b, |a|, kind); } else { AddrsToConcat(a, b, n - 1, kind); }
  }

  lemma AddrsConcat(a: seq<Block>, b: seq<Block>, kind: int)
    ensures Addrs(a + b, kind) == Addrs(a, kind) + Addrs(b, kind)
  {
    AddrsToConcat(a, b, |b|, kind);
  }

  lemma {:induction false} AddrsMember(bs: seq<Block>, n: int, kind: int, x: int) returns (i: int)
    requires 0 <= n <= |bs| && x in AddrsTo(bs, n, kind)
    ensures 0 <= i < n && Kind(bs[i]) == kind && bs[i].addr == x
  {
    if Kind(bs[n - 1]) == kind && bs[n - 1].addr == x {
      i := n - 1;
    } else {
      i := AddrsMember(bs, n - 1, kind, x);
    }
  }

  lemma {:induction false} AddrsHas(bs: seq<Block>, n: int, i: int)
    requires 0 <= i < n <= |bs|
    ensures bs[i].addr in AddrsTo(bs, n, Kind(bs[i]))
  {
    if i < n - 1 { AddrsHas(bs, n - 1, i); }
  }

  lemma AddrsOfOne(b: Block, kind: int)
    ensures Addrs([b], kind) == if Kind(b) == kind then {b.addr} else {}
  {
    assert AddrsTo([b], 0, kind) == {};
  }

  lemma AddrsOfTwo(a: Block, b: Block, kind: int)
    ensures Addrs([a, b], kind) == Addrs([a], kind) + Addrs([b], kind)
  {
    AddrsConcat([a], [b], kind);
    assert [a] + [b] == [a, b];
  }

  /** Replacing a stretch of blocks changes each kind by the blocks of the stretch only. */
  lemma AddrsSplice(bs: seq<Block>, i: int, j: int, mid: seq<Block>, kind: int)
    requires 0 <= i <= j <= |bs|
    ensures Addrs(bs, kind) == Addrs(bs[..i], kind) + Addrs(bs[i..j], kind) + Addrs(bs[j..], kind)
    ensures Addrs(bs[..i] + mid + bs[j..], kind) == Addrs(bs[..i], kind) + Addrs(mid, kind) + Addrs(bs[j..], kind)
  {
    assert bs == bs[..i] + bs[i..j] + bs[j..];
    AddrsConcat(bs[..i], bs[i..j], kind);
    AddrsConcat(bs[..i] + bs[i..j], bs[j..], kind);
    AddrsConcat(bs[..i], mid, kind);
    AddrsConcat(bs[..i] + mid, bs[j..], kind);
  }

  /** No block outside the stretch shares an address with a block inside it. */
  lemma StretchApart(bs: seq<Block>, i: int, j: int, k: int, kind: int)
    requires Tiles(bs) && 0 <= i <= k < j <= |bs|
    ensures bs[k].addr !in Addrs(bs[..i], kind) && bs[k].addr !in Addrs(bs[j..], kind)
  {
    if bs[k].addr in Addrs(bs[..i], kind) {
      var l := AddrsMember(bs[..i], i, kind, bs[k].addr);
      Ordered(bs, l, k);
    }
    if bs[k].addr in Addrs(bs[j..], kind) {
      var l := AddrsMember(bs[j..], |bs| - j, kind, bs[k].addr);
      Ordered(bs, k, j + l);
    }
  }

  /** Replacing block `k` by `b`, at the same address, moves that address between kinds. */
  lemma AddrsUpdate(bs: seq<Block>, k: int, b: Block, kind: int)
    requires Tiles(bs) && 0 <= k < |bs| && b.addr == bs[k].addr
    ensures Addrs(bs[k := b], kind) == Addrs(bs, kind) - {b.addr} + (if Kind(b) == kind then {b.addr} else {})
    ensures b.addr in Addrs(bs, kind) <==> Kind(bs[k]) == kind
  {
    assert bs[k := b] == bs[..k] + [b] + bs[k + 1..];
    AddrsSplice(bs, k, k + 1, [b], kind);
    assert bs[k..k + 1] == [bs[k]];
    StretchApart(bs, k, k + 1, k, kind);
    AddrsOfOne(bs[k], kind);
    AddrsOfOne(b, kind);
    SwapMiddle(Addrs(bs[..k], kind), Addrs([bs[k]], kind), Addrs([b], kind), Addrs(bs[k + 1..], kind), b.addr);
  }

  lemma SwapMiddle(pre: set<int>, mid: set<int>, mid': set<int>, post: set<int>, x: int)
    requires x !in pre && x !in post && mid <= {x} && mid' <= {x}
    ensures pre + mid' + post == pre + mid + post - {x} + mid'
    ensures x in pre + mid + post <==> x in mid
  {}

  /** Splitting used block `k` adds the address of the new free tail. */
  lemma AddrsSplit(bs: seq<Block>, k: int, n: int, kind: int)
    requires 0 <= k < |bs| && !bs[k].free
    ensures var tail := SplitAt(bs, k, n)[k + 1];
      Addrs(SplitAt(bs, k, n), kind) == Addrs(bs, kind) + (if Kind(tail) == kind then {tail.addr} else {})
  {
    var head := bs[k].(size := n);
    var tail := Block(bs[k].addr + HEADER + n, bs[k].size - n - HEADER, true);
    AddrsSplice(bs, k, k + 1, [head, tail], kind);
    assert bs[k..k + 1] == [bs[k]];
    AddrsOfOne(bs[k], kind);
    AddrsOfOne(head, kind);
    AddrsOfOne(tail, kind);
    AddrsOfTwo(head, tail, kind);
  }

  /** Absorbing used block `k + 1` into used block `k` drops its address. */
  lemma AddrsAbsorb(bs: seq<Block>, k: int, kind: int)
    requires Tiles(bs) && 0 <= k < |bs| - 1 && !bs[k].free && !bs[k + 1].free
    ensures Addrs(Absorb(bs, k), kind) == Addrs(bs, kind) - {bs[k + 1].addr}
  {
    var b := bs[k].(size := bs[k].size + HEADER + bs[k + 1].size);
    AddrsSplice(bs, k, k + 2, [b], kind);
    assert bs[k..k + 2] == [bs[k], bs[k + 1]];
    StretchApart(bs, k, k + 2, k + 1, kind);
    Ordered(bs, k, k + 1);
    TwoIntoOne(bs[k], bs[k + 1], b, kind);
    DropFromMiddle(Addrs(bs[..k], kind), Addrs([bs[k], bs[k + 1]], kind), Addrs([b], kind), Addrs(bs[k + 2..], kind),
      bs[k + 1].addr);
  }

  lemma DropFromMiddle(pre: set<int>, mid: set<int>, mid': set<int>, post: set<int>, x: int)
    requires x !in pre && x !in post && mid' == mid - {x}
    ensures pre + mid' + post == pre + mid + post - {x}
  {}

  lemma TwoIntoOne(a: Block, c: Block, b: Block, kind: int)
    requires !a.free && !c.free && !b.free && b.addr == a.addr && a.addr != c.addr
    ensures Addrs([b], kind) == Addrs([a, c], kind) - {c.addr}
  {
    AddrsOfTwo(a, c, kind);
    AddrsOfOne(a, kind);
    AddrsOfOne(c, kind);
    AddrsOfOne(b, kind);
  }

  // ----- Runs -----

  datatype Op = Malloc(size: int, ptr: int) | Free(ptr: int)

  ghost predicate Allocates(bs: seq<Block>, out: set<int>, k: int, n: int, ptr: int, bs': seq<Block>, out': set<int>)
    requires 0 <= k < |bs|
  {
    Fits(bs[k], n) && ptr == bs[k].addr + HEADER && bs' == AllocAt(bs, k, n) && out' == out + {ptr - HEADER}
  }

  ghost predicate Frees(bs: seq<Block>, out: set<int>, k: int, ptr: int, bs': seq<Block>, out': set<int>)
    requires 0 <= k < |bs|
  {
    ptr - HEADER in out && ptr == bs[k].addr + HEADER && bs' == FreeAt(bs, k) && out' == out - {ptr - HEADER}
  }

  /** One call, as its caller sees it: `out` holds the headers of the blocks handed out and not yet freed. */
  ghost predicate Step(bs: seq<Block>, out: set<int>, op: Op, bs': seq<Block>, out': set<int>) {
    match op
    case Malloc(size, ptr) =>
      && 0 <= size < WORD
      && if ptr == 0 then
           (forall i :: 0 <= i < |bs| ==> !Fits(bs[i], Rounded(size))) && bs' == bs && out' == out
         else
           exists k :: 0 <= k < |bs| && Allocates(bs, out, k, Rounded(size), ptr, bs', out')
    case Free(ptr) =>
      exists k :: 0 <= k < |bs| && Frees(bs, out, k, ptr, bs', out')
  }

  datatype State = State(blocks: seq<Block>, out: set<int>)

  ghost predicate IsRun(run: seq<State>, ops: seq<Op>) {
    && |run| == |ops| + 1
    && run[0] == State(Initial, {})
    && forall i :: 0 <= i < |ops| ==> Step(run[i].blocks, run[i].out, ops[i], run[i + 1].blocks, run[i + 1].out)
  }

  lemma UsedIffOut(bs: seq<Block>, k: int)
    requires Tiles(bs) && 0 <= k < |bs|
    ensures !bs[k].free <==> bs[k].addr in Addrs(bs, USED)
  {
    AddrsUpdate(bs, k, bs[k], USED);
  }

  lemma AllocAddrs(bs: seq<Block>, k: int, n: int)
    requires Tiles(bs) && 0 <= k < |bs| && bs[k].free
    ensures Addrs(AllocAt(bs, k, n), USED) == Addrs(bs, USED) + {bs[k].addr}
  {
    AddrsUpdate(bs, k, bs[k].(free := false), USED);
    AddrsSplit(Mark(bs, k, false), k, n, USED);
    SplitIndex(Mark(bs, k, false), k, n, k + 1);
  }

  lemma MarkKeepsTiles(bs: seq<Block>, k: int, f: bool)
    requires Tiles(bs) && 0 <= k < |bs|
    ensures Tiles(Mark(bs, k, f))
  {}

  lemma MergeRightAddrs(bs: seq<Block>, k: int)
    requires Tiles(bs) && 0 <= k < |bs| && !bs[k].free
    ensures Addrs(MergeRight(bs, k), USED) == Addrs(bs, USED)
  {
    if k + 1 < |bs| && bs[k + 1].free {
      var m := Mark(bs, k + 1, false);
      AddrsUpdate(bs, k + 1, bs[k + 1].(free := false), USED);
      MarkKeepsTiles(bs, k + 1, false);
      AddrsAbsorb(m, k, USED);
      assert Addrs(m, USED) == Addrs(bs, USED) + {bs[k + 1].addr};
    }
  }

  /** The used addresses after block `k` changes its flag. */
  lemma AddrsMark(bs: seq<Block>, k: int, free: bool)
    requires Tiles(bs) && 0 <= k < |bs|
    ensures Addrs(Mark(bs, k, free), USED) ==
      if free then Addrs(bs, USED) - {bs[k].addr} else Addrs(bs, USED) + {bs[k].addr}
    ensures bs[k].free ==> bs[k].addr !in Addrs(bs, USED)
  {
    AddrsUpdate(bs, k, bs[k].(free := free), USED);
  }

  /** Absorbing used block `k + 1` into a block that was free, and listing the whole as free. */
  lemma JoinLeftAddrs(bs: seq<Block>, k: int)
    requires Tiles(bs) && 0 <= k < |bs| - 1 && bs[k].free && !bs[k + 1].free
    ensures Addrs(Mark(Absorb(Mark(bs, k, false), k), k, true), USED) == Addrs(bs, USED) - {bs[k + 1].addr}
  {
    AddrsMark(bs, k, false);
    var m := Mark(bs, k, false);
    MarkKeepsTiles(bs, k, false);
    AddrsAbsorb(m, k, USED);
    AbsorbKeepsTiles(m, k);
    AbsorbIndex(m, k, k);
    AddrsMark(Absorb(m, k), k, true);
    AddAndDrop(Addrs(bs, USED), bs[k].addr, bs[k + 1].addr);
  }

  lemma AddAndDrop(s: set<int>, x: int, y: int)
    requires x !in s
    ensures s + {x} - {y} - {x} == s - {y}
  {}

  lemma MergeLeftAddrs(bs: seq<Block>, k: int)
    requires Tiles(bs) && 0 <= k < |bs| && !bs[k].free
    ensures Addrs(MergeLeft(bs, k), USED) == Addrs(bs, USED) - {bs[k].addr}
  {
    if k > 0 && bs[k - 1].free {
      JoinLeftAddrs(bs, k - 1);
    } else {
      AddrsMark(bs, k, true);
    }
  }

  lemma FreeAddrs(bs: seq<Block>, k: int)
    requires Inv(bs) && 0 <= k < |bs| && !bs[k].free
    ensures Addrs(FreeAt(bs, k), USED) == Addrs(bs, USED) - {bs[k].addr}
  {
    MergeRightKeepsInv(bs, k);
    MergeRightAddrs(bs, k);
    MergeLeftAddrs(MergeRight(bs, k), k);
  }

  lemma StepKeepsInv(bs: seq<Block>, out: set<int>, op: Op, bs': seq<Block>, out': set<int>)
    requires Inv(bs) && out == Addrs(bs, USED) && Step(bs, out, op, bs', out')
    ensures Inv(bs') && out' == Addrs(bs', USED)
  {
    match op
    case Malloc(size, ptr) =>
      if ptr != 0 {
        var k :| 0 <= k < |bs| && Allocates(bs, out, k, Rounded(size), ptr, bs', out');
        AllocKeepsInv(bs, k, Rounded(size));
        AllocAddrs(bs, k, Rounded(size));
      }
    case Free(ptr) =>
      var k :| 0 <= k < |bs| && Frees(bs, out, k, ptr, bs', out');
      UsedIffOut(bs, k);
      FreeKeepsInv(bs, k);
      FreeAddrs(bs, k);
  }

  /** Every state of every run of `kmalloc` and `kfree` is tiled and coalesced. */
  lemma {:induction false} RunKeepsInv(run: seq<State>, ops: seq<Op>, i: int)
    requires IsRun(run, ops) && 0 <= i < |run|
    ensures Inv(run[i].blocks) && run[i].out == Addrs(run[i].blocks, USED)
  {
    if i == 0 {
      AddrsOfOne(Initial[0], USED);
    } else {
      RunKeepsInv(run, ops, i - 1);
      var s, s' := run[i - 1], run[i - 1 + 1];
      StepKeepsInv(s.blocks, s.out, ops[i - 1], s'.blocks, s'.out);
    }
  }

  /** A run that has freed all it allocated is back at the single initial block. */
  lemma FreeingAllRestores(run: seq<State>, ops: seq<Op>)
    requires IsRun(run, ops) && run[|ops|].out == {}
    ensures run[|ops|].blocks == Initial
  {
    RunKeepsInv(run, ops, |ops|);
    var bs := run[|ops|].blocks;
    UsedIffOut(bs, 0);
    if |bs| > 1 { UsedIffOut(bs, 1); }
  }

  // ----- Alignment -----

  /** Sizes are multiples of four. */
  ghost predicate Aligned(bs: seq<Block>) { forall i :: 0 <= i < |bs| ==> bs[i].size % 4 == 0 }

  lemma AllocAligned(bs: seq<Block>, k: int, n: int)
    requires Aligned(bs) && 0 <= k < |bs| && n % 4 == 0
    ensures Aligned(AllocAt(bs, k, n))
  {}

  lemma AbsorbAligned(bs: seq<Block>, k: int)
    requires Aligned(bs) && 0 <= k < |bs| - 1
    ensures Aligned(Absorb(bs, k))
  {}

  lemma FreeAligned(bs: seq<Block>, k: int)
    requires Aligned(bs) && 0 <= k < |bs|
    ensures Aligned(FreeAt(bs, k))
  {
    if k + 1 < |bs| { AbsorbAligned(Mark(bs, k + 1, false), k); }
    var cs := MergeRight(bs, k);
    if k > 0 { AbsorbAligned(Mark(cs, k - 1, false), k - 1); }
  }

  /** With such sizes, headers and payloads start at multiples of four. */
  lemma {:induction false} FourAligned(bs: seq<Block>, k: int)
    requires Tiles(bs) && Aligned(bs) && 0 <= k < |bs|
    ensures bs[k].addr % 4 == 0 && (bs[k].addr + HEADER) % 4 == 0
    decreases k
  {
    if k > 0 {
      FourAligned(bs, k - 1);
      assert bs[k].addr == bs[k - 1].addr + HEADER + bs[k - 1].size;
    }
  }
}
