/**
 The layouts that kmalloc and kfree leave, block by block, and what they do to the
 number of bytes in use.
 */
module HeapLaws {
  import opened HeapSpec

  /** The largest size in bin `b`: 32 bytes, doubled from bin to bin. */
  function BinLimit(b: nat): int { if b == 0 then 32 else 2 * BinLimit(b - 1) }

  lemma BinLimits()
    ensures BinLimit(0) == 32 && BinLimit(1) == 64 && BinLimit(2) == 128 && BinLimit(3) == 256 && BinLimit(4) == 512
    ensures BinLimit(5) == 1024 && BinLimit(6) == 2048 && BinLimit(7) == 4096 && BinLimit(8) == 8192
    ensures BinLimit(9) == 16384 && BinLimit(10) == 32768 && BinLimit(11) == 65536 && BinLimit(12) == 131072
    ensures BinLimit(13) == 262144 && BinLimit(14) == 524288
  {
    assert BinLimit(7) == 4096;
    assert BinLimit(11) == 65536;
  }

  /** A size is in the first bin whose limit it does not exceed, and in the last one if there is none. */
  lemma BinIs(size: int, b: nat)
    requires b < 15
    ensures BinIndex(size) <= b <==> size <= BinLimit(b)
  {
    BinLimits();
  }

  /** kmalloc: the block is cut after `n` bytes if more than 16 remain behind a new header, and taken whole if not. */
  lemma AllocIs(bs: seq<Block>, k: int, n: int)
    requires 0 <= k < |bs| && bs[k].free
    ensures var a, size := bs[k].addr, bs[k].size;
      var cut := [Block(a, n, false), Block(a + 28 + n, size - n - 28, true)];
      AllocAt(bs, k, n) == bs[..k] + (if size > n + 44 then cut else [Block(a, size, false)]) + bs[k + 1..]
  {
    var m := Mark(bs, k, false);
    assert m[..k] == bs[..k] && m[k + 1..] == bs[k + 1..] && m[k] == Block(bs[k].addr, bs[k].size, false);
    assert m == bs[..k] + [m[k]] + bs[k + 1..];
  }

  /** What is handed out is at least as large as asked for, and larger by at most 44 bytes. */
  lemma HandedSize(bs: seq<Block>, k: int, n: int)
    requires 0 <= k < |bs| && Fits(bs[k], n)
    ensures var r := AllocAt(bs, k, n);
      k < |r| && r[k].addr == bs[k].addr && !r[k].free && n <= r[k].size <= n + 44
  {
    AllocIs(bs, k, n);
  }

  /** The first and the last of a block and its free neighbours. */
  function Low(bs: seq<Block>, k: int): (lo: int)
    requires 0 <= k < |bs|
    ensures 0 <= lo <= k
  {
    if k > 0 && bs[k - 1].free then k - 1 else k
  }

  function High(bs: seq<Block>, k: int): (hi: int)
    requires 0 <= k < |bs|
    ensures k <= hi < |bs|
  {
    if k + 1 < |bs| && bs[k + 1].free then k + 1 else k
  }

  /** kfree: one free block takes the place of the block freed and its free neighbours, with their headers. */
  lemma FreeIs(bs: seq<Block>, k: int)
    requires Tiles(bs) && 0 <= k < |bs| && !bs[k].free
    ensures var lo, hi := Low(bs, k), High(bs, k);
      FreeAt(bs, k) == bs[..lo] + [Block(bs[lo].addr, bs[hi].addr + bs[hi].size - bs[lo].addr, true)] + bs[hi + 1..]
  {
    RightIs(bs, k);
    LeftIs(MergeRight(bs, k), k);
    assert k > 0 ==> bs[k].addr == bs[k - 1].addr + HEADER + bs[k - 1].size;
    assert k + 1 < |bs| ==> bs[k + 1].addr == bs[k].addr + HEADER + bs[k].size;
    BothIs(bs, k, MergeRight(bs, k), FreeAt(bs, k));
  }

  lemma BothIs(bs: seq<Block>, k: int, r: seq<Block>, f: seq<Block>)
    requires 0 <= k < |bs| && RightMerged(bs, k, r) && LeftMerged(r, k, f)
    requires k > 0 ==> bs[k].addr == bs[k - 1].addr + 28 + bs[k - 1].size
    requires k + 1 < |bs| ==> bs[k + 1].addr == bs[k].addr + 28 + bs[k].size
    ensures var lo, hi := Low(bs, k), High(bs, k);
      f == bs[..lo] + [Block(bs[lo].addr, bs[hi].addr + bs[hi].size - bs[lo].addr, true)] + bs[hi + 1..]
  {
    var hi := High(bs, k);
    RightParts(bs, k, r);
    if Low(bs, k) != k {
      assert r[..k - 1] == r[..k][..k - 1] == bs[..k - 1];
      assert r[k - 1] == r[..k][k - 1] == bs[k - 1];
    }
  }

  lemma RightParts(bs: seq<Block>, k: int, r: seq<Block>)
    requires 0 <= k < |bs| && RightMerged(bs, k, r)
    requires k + 1 < |bs| ==> bs[k + 1].addr == bs[k].addr + 28 + bs[k].size
    ensures var hi := High(bs, k);
      && |r| > k && r[..k] == bs[..k] && r[k + 1..] == bs[hi + 1..]
      && r[k].addr == bs[k].addr && r[k].size == bs[hi].addr + bs[hi].size - bs[k].addr
      && (k > 0 ==> r[k - 1].free == bs[k - 1].free)
  {
    if k > 0 { assert r[..k][k - 1] == bs[..k][k - 1]; }
  }

  ghost predicate RightMerged(bs: seq<Block>, k: int, r: seq<Block>)
    requires 0 <= k < |bs|
  {
    r == if k + 1 < |bs| && bs[k + 1].free then
           bs[..k] + [bs[k].(size := bs[k].size + 28 + bs[k + 1].size)] + bs[k + 2..]
         else bs[..k] + [bs[k]] + bs[k + 1..]
  }

  ghost predicate LeftMerged(r: seq<Block>, k: int, f: seq<Block>) {
    0 <= k < |r| &&
    f == if k > 0 && r[k - 1].free then
           r[..k - 1] + [Block(r[k - 1].addr, r[k - 1].size + 28 + r[k].size, true)] + r[k + 1..]
         else r[..k] + [Block(r[k].addr, r[k].size, true)] + r[k + 1..]
  }

  lemma RightIs(bs: seq<Block>, k: int)
    requires 0 <= k < |bs|
    ensures RightMerged(bs, k, MergeRight(bs, k))
  {
    if k + 1 < |bs| && bs[k + 1].free {
      var m := Mark(bs, k + 1, false);
      assert m[..k] == bs[..k] && m[k + 2..] == bs[k + 2..];
    } else {
      assert bs == bs[..k] + [bs[k]] + bs[k + 1..];
    }
  }

  lemma LeftIs(r: seq<Block>, k: int)
    requires 0 <= k < |r|
    ensures LeftMerged(r, k, MergeLeft(r, k))
  {
    if k > 0 && r[k - 1].free {
      var m := Mark(r, k - 1, false);
      assert m[..k - 1] == r[..k - 1] && m[k + 1..] == r[k + 1..];
      var a := Absorb(m, k - 1);
      assert a[..k - 1] == r[..k - 1] && a[k..] == r[k + 1..];
      assert Mark(a, k - 1, true) == a[..k - 1] + [a[k - 1].(free := true)] + a[k..];
    } else {
      assert Mark(r, k, true) == r[..k] + [r[k].(free := true)] + r[k + 1..];
    }
  }

  // ----- Bytes in use -----

  lemma {:induction false} UsedConcat(a: seq<Block>, b: seq<Block>)
    ensures UsedBytes(a + b) == UsedBytes(a) + UsedBytes(b)
    decreases |a|
  {
    if a == [] {
      assert a + b == b;
    } else {
      assert (a + b)[1..] == a[1..] + b;
      UsedConcat(a[1..], b);
    }
  }

  lemma UsedAround(a: seq<Block>, m: seq<Block>, b: seq<Block>)
    ensures UsedBytes(a + m + b) == UsedBytes(a) + UsedBytes(m) + UsedBytes(b)
  {
    UsedConcat(a + m, b);
    UsedConcat(a, m);
  }

  lemma UsedOne(x: Block)
    ensures UsedBytes([x]) == if x.free then 0 else x.size
  {
    assert [x][1..] == [];
  }

  lemma UsedTwo(x: Block, y: Block)
    ensures UsedBytes([x, y]) == (if x.free then 0 else x.size) + if y.free then 0 else y.size
  {
    assert [x, y] == [x] + [y];
    UsedConcat([x], [y]);
    UsedOne(x);
    UsedOne(y);
  }

  /** kmalloc raises the bytes in use by the size handed out. */
  lemma AllocUses(bs: seq<Block>, k: int, n: int)
    requires 0 <= k < |bs| && Fits(bs[k], n)
    ensures k < |AllocAt(bs, k, n)| && UsedBytes(AllocAt(bs, k, n)) == UsedBytes(bs) + AllocAt(bs, k, n)[k].size
  {
    AllocIs(bs, k, n);
    assert bs == bs[..k] + [bs[k]] + bs[k + 1..];
    UsedAround(bs[..k], [bs[k]], bs[k + 1..]);
    UsedOne(bs[k]);
    var x, y := Block(bs[k].addr, n, false), Block(bs[k].addr + 28 + n, bs[k].size - n - 28, true);
    if bs[k].size > n + 44 {
      UsedAround(bs[..k], [x, y], bs[k + 1..]);
      UsedTwo(x, y);
    } else {
      UsedAround(bs[..k], [Block(bs[k].addr, bs[k].size, false)], bs[k + 1..]);
      UsedOne(Block(bs[k].addr, bs[k].size, false));
    }
  }

  /** kfree lowers them by the size of the block freed. */
  lemma FreeReleases(bs: seq<Block>, k: int)
    requires Tiles(bs) && 0 <= k < |bs| && !bs[k].free
    ensures UsedBytes(FreeAt(bs, k)) == UsedBytes(bs) - bs[k].size
  {
    FreeIs(bs, k);
    Released(bs, k, FreeAt(bs, k));
  }

  lemma Released(bs: seq<Block>, k: int, f: seq<Block>)
    requires 0 <= k < |bs| && !bs[k].free
    requires var lo, hi := Low(bs, k), High(bs, k);
      f == bs[..lo] + [Block(bs[lo].addr, bs[hi].addr + bs[hi].size - bs[lo].addr, true)] + bs[hi + 1..]
    ensures UsedBytes(f) == UsedBytes(bs) - bs[k].size
  {
    var lo, hi := Low(bs, k), High(bs, k);
    MiddleUsed(bs, lo, k, hi);
    Replaced(bs, lo, hi, Block(bs[lo].addr, bs[hi].addr + bs[hi].size - bs[lo].addr, true));
  }

  lemma Replaced(bs: seq<Block>, lo: int, hi: int, x: Block)
    requires 0 <= lo <= hi < |bs| && x.free
    ensures UsedBytes(bs[..lo] + [x] + bs[hi + 1..]) == UsedBytes(bs) - UsedBytes(bs[lo..hi + 1])
  {
    assert bs == bs[..lo] + bs[lo..hi + 1] + bs[hi + 1..];
    UsedAround(bs[..lo], bs[lo..hi + 1], bs[hi + 1..]);
    UsedAround(bs[..lo], [x], bs[hi + 1..]);
    UsedOne(x);
  }

  lemma MiddleUsed(bs: seq<Block>, lo: int, k: int, hi: int)
    requires 0 <= k < |bs| && lo == Low(bs, k) && hi == High(bs, k) && !bs[k].free
    ensures UsedBytes(bs[lo..hi + 1]) == bs[k].size
  {
    assert bs[lo..hi + 1] == bs[lo..k] + [bs[k]] + bs[k + 1..hi + 1];
    UsedAround(bs[lo..k], [bs[k]], bs[k + 1..hi + 1]);
    UsedOne(bs[k]);
    if lo < k { assert bs[lo..k] == [bs[lo]]; UsedOne(bs[lo]); }
    if hi > k { assert bs[k + 1..hi + 1] == [bs[hi]]; UsedOne(bs[hi]); }
  }
}
