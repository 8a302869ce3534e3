/**
 The allocator of kernel/mm/memory.c on its linked representation: headers at
 addresses (one map per header field, stale headers included), an address-ordered
 doubly linked block list and sixteen segregated free lists.
 */
module Heap {
  import opened HeapSpec
  import opened HeapLists

  /**
   The header fields describe the blocks `bs` and link them in order.  While a block
   is off the free lists (`pending`), `bs` calls it used whatever its flag says.
   */
  ghost predicate Headers(bs: seq<Block>, size: Ptrs, isFree: map<int, bool>, next: Ptrs, prev: Ptrs, pending: int) {
    && |bs| > 0
    && (forall i :: 0 <= i < |bs| ==> Header(bs[i], size, isFree, next, prev, pending))
    && (forall i, j :: 0 <= i < j < |bs| && j == i + 1 ==>
          next[bs[i].addr] == bs[j].addr && prev[bs[j].addr] == bs[i].addr)
    && prev[bs[0].addr] == 0 && next[bs[|bs| - 1].addr] == 0
  }

  ghost predicate Header(b: Block, size: Ptrs, isFree: map<int, bool>, next: Ptrs, prev: Ptrs, pending: int) {
    && b.addr in size && b.addr in isFree && b.addr in next && b.addr in prev
    && size[b.addr] == b.size
    && (b.addr != pending ==> isFree[b.addr] == b.free)
  }

  function Members(L: seq<int>): set<int> {
    set a | a in L
  }

  /** Exactly the free blocks are listed, each on the bin of its size. */
  ghost predicate Listed(lists: seq<seq<int>>, bs: seq<Block>) {
    |lists| == NUM_BINS && forall b :: 0 <= b < NUM_BINS ==> Members(lists[b]) == Addrs(bs, b)
  }

  // ----- What the header writes do -----

  /** Addresses are distinct, increasing and not `NULL`. */
  ghost predicate Placed(bs: seq<Block>) {
    && (forall i :: 0 <= i < |bs| ==> 0 < bs[i].addr)
    && forall i, j :: 0 <= i < j < |bs| ==> bs[i].addr < bs[j].addr
  }

  lemma TilesPlaced(bs: seq<Block>)
    requires Tiles(bs)
    ensures Placed(bs)
  {
    forall i, j | 0 <= i < j < |bs| ensures bs[i].addr < bs[j].addr { Ordered(bs, i, j); }
    forall i | 0 <= i < |bs| ensures 0 < bs[i].addr { Bounds(bs, i); }
  }

  lemma NotInside(bs: seq<Block>, k: int, x: int)
    requires Tiles(bs) && 0 <= k < |bs|
    requires bs[k].addr < x < bs[k].addr + HEADER + bs[k].size
    ensures forall i :: 0 <= i < |bs| ==> bs[i].addr != x
  {
    forall i | 0 <= i < |bs| ensures bs[i].addr != x {
      if i < k { Ordered(bs, i, k); } else if k < i { Ordered(bs, k, i); }
    }
  }

  lemma NotListed(lists: seq<seq<int>>, bs: seq<Block>, x: int)
    requires Listed(lists, bs)
    requires forall i :: 0 <= i < |bs| && bs[i].free ==> bs[i].addr != x
    ensures forall c :: 0 <= c < |lists| ==> x !in lists[c]
  {
    forall c | 0 <= c < |lists| ensures x !in lists[c] {
      if x in lists[c] {
        assert x in Members(lists[c]);
        var i := AddrsMember(bs, |bs|, c, x);
      }
    }
  }

  lemma UsedNotListed(lists: seq<seq<int>>, bs: seq<Block>, k: int)
    requires Listed(lists, bs) && Placed(bs) && 0 <= k < |bs| && !bs[k].free
    ensures forall c :: 0 <= c < |lists| ==> bs[k].addr !in lists[c]
  {
    NotListed(lists, bs, bs[k].addr);
  }

  /** Block `k` is off the free lists: it counts as used from here. */
  lemma HeadersSuspend(bs: seq<Block>, size: Ptrs, isFree: map<int, bool>, next: Ptrs, prev: Ptrs, k: int)
    requires Headers(bs, size, isFree, next, prev, 0) && Placed(bs) && 0 <= k < |bs|
    ensures Headers(Mark(bs, k, false), size, isFree, next, prev, bs[k].addr)
  {
    var r := Mark(bs, k, false);
    assert forall i :: 0 <= i < |r| ==> r[i].addr == bs[i].addr;
    forall i | 0 <= i < |r| ensures Header(r[i], size, isFree, next, prev, bs[k].addr) {
      assert Header(bs[i], size, isFree, next, prev, 0);
    }
  }

  /** Writing the flag of block `k`. */
  lemma HeadersFlag(bs: seq<Block>, size: Ptrs, isFree: map<int, bool>, next: Ptrs, prev: Ptrs, pending: int, k: int,
                    f: bool)
    requires Headers(bs, size, isFree, next, prev, pending) && Placed(bs) && 0 <= k < |bs|
    requires pending == 0 || pending == bs[k].addr
    ensures Headers(Mark(bs, k, f), size, isFree[bs[k].addr := f], next, prev, 0)
  {
    var r := Mark(bs, k, f);
    assert forall i :: 0 <= i < |r| ==> r[i].addr == bs[i].addr;
    forall i | 0 <= i < |r| ensures Header(r[i], size, isFree[bs[k].addr := f], next, prev, 0) {
      assert Header(bs[i], size, isFree, next, prev, pending);
    }
  }

  /** What the link fields of block `k` hold. */
  lemma LinksOut(bs: seq<Block>, size: Ptrs, isFree: map<int, bool>, next: Ptrs, prev: Ptrs, pending: int, k: int)
    requires Headers(bs, size, isFree, next, prev, pending) && 0 <= k < |bs|
    ensures Header(bs[k], size, isFree, next, prev, pending)
    ensures next[bs[k].addr] == if k + 1 < |bs| then bs[k + 1].addr else 0
    ensures prev[bs[k].addr] == if k > 0 then bs[k - 1].addr else 0
  {}

  /** The fields after block `k` is cut at `x`. */
  ghost predicate CutFields(bs: seq<Block>, k: int, n: int, size: Ptrs, isFree: map<int, bool>, next: Ptrs, prev: Ptrs,
                            size': Ptrs, isFree': map<int, bool>, next': Ptrs, prev': Ptrs)
    requires 0 <= k < |bs| && bs[k].addr in next
  {
    var block, x := bs[k].addr, bs[k].addr + HEADER + n;
    && size' == size[x := bs[k].size - n - HEADER][block := n]
    && isFree' == isFree[x := true]
    && next' == next[x := next[block]][block := x]
    && prev' == if next[block] != 0 then prev[x := block][next[block] := x] else prev[x := block]
  }

  lemma CutHeaderAt(bs: seq<Block>, size: Ptrs, isFree: map<int, bool>, next: Ptrs, prev: Ptrs, k: int, n: int, i: int,
                    size': Ptrs, isFree': map<int, bool>, next': Ptrs, prev': Ptrs)
    requires 0 <= k < |bs| && Headers(bs, size, isFree, next, prev, bs[k].addr) && Placed(bs) && 0 <= i <= |bs|
    requires 0 <= n
    requires bs[k].addr in next && CutFields(bs, k, n, size, isFree, next, prev, size', isFree', next', prev')
    requires forall l :: 0 <= l < |bs| ==> bs[l].addr != bs[k].addr + HEADER + n
    ensures Header(SplitAt(bs, k, n)[i], size', isFree', next', prev', bs[k].addr)
  {
    SplitIndex(bs, k, n, i);
    if i <= k { assert Header(bs[i], size, isFree, next, prev, bs[k].addr); }
    if i > k + 1 { assert Header(bs[i - 1], size, isFree, next, prev, bs[k].addr); }
  }

  lemma CutLinkAt(bs: seq<Block>, size: Ptrs, isFree: map<int, bool>, next: Ptrs, prev: Ptrs, k: int, n: int, i: int,
                  size': Ptrs, isFree': map<int, bool>, next': Ptrs, prev': Ptrs)
    requires 0 <= k < |bs| && Headers(bs, size, isFree, next, prev, bs[k].addr) && Placed(bs) && 0 <= i < |bs| && 0 <= n
    requires bs[k].addr in next && CutFields(bs, k, n, size, isFree, next, prev, size', isFree', next', prev')
    requires forall l :: 0 <= l < |bs| ==> bs[l].addr != bs[k].addr + HEADER + n
    ensures var r := SplitAt(bs, k, n);
      && r[i].addr in next' && r[i + 1].addr in prev'
      && next'[r[i].addr] == r[i + 1].addr && prev'[r[i + 1].addr] == r[i].addr
  {
    SplitIndex(bs, k, n, i);
    SplitIndex(bs, k, n, i + 1);
    LinksOut(bs, size, isFree, next, prev, bs[k].addr, k);
    if i <= k { assert Header(bs[i], size, isFree, next, prev, bs[k].addr); }
    if i > k {
      LinksOut(bs, size, isFree, next, prev, bs[k].addr, i - 1);
      LinksOut(bs, size, isFree, next, prev, bs[k].addr, i);
    }
    if i < k {
      LinksOut(bs, size, isFree, next, prev, bs[k].addr, i);
      LinksOut(bs, size, isFree, next, prev, bs[k].addr, i + 1);
    }
  }

  lemma CutEnds(bs: seq<Block>, size: Ptrs, isFree: map<int, bool>, next: Ptrs, prev: Ptrs, k: int, n: int,
                size': Ptrs, isFree': map<int, bool>, next': Ptrs, prev': Ptrs)
    requires 0 <= k < |bs| && Headers(bs, size, isFree, next, prev, bs[k].addr) && Placed(bs) && 0 <= n
    requires bs[k].addr in next && CutFields(bs, k, n, size, isFree, next, prev, size', isFree', next', prev')
    requires forall l :: 0 <= l < |bs| ==> bs[l].addr != bs[k].addr + HEADER + n
    ensures var r := SplitAt(bs, k, n);
      && r[0].addr in prev' && r[|bs|].addr in next' && prev'[r[0].addr] == 0 && next'[r[|bs|].addr] == 0
  {
    SplitIndex(bs, k, n, 0);
    SplitIndex(bs, k, n, |bs|);
    LinksOut(bs, size, isFree, next, prev, bs[k].addr, k);
    LinksOut(bs, size, isFree, next, prev, bs[k].addr, 0);
    LinksOut(bs, size, isFree, next, prev, bs[k].addr, |bs| - 1);
  }

  lemma HeadersSplit(bs: seq<Block>, size: Ptrs, isFree: map<int, bool>, next: Ptrs, prev: Ptrs, k: int, n: int,
                     size': Ptrs, isFree': map<int, bool>, next': Ptrs, prev': Ptrs)
    requires 0 <= k < |bs| && Headers(bs, size, isFree, next, prev, bs[k].addr) && Placed(bs) && 0 <= n
    requires bs[k].addr in next && CutFields(bs, k, n, size, isFree, next, prev, size', isFree', next', prev')
    requires forall i :: 0 <= i < |bs| ==> bs[i].addr != bs[k].addr + HEADER + n
    ensures Headers(SplitAt(bs, k, n), size', isFree', next', prev', bs[k].addr)
  {
    var r := SplitAt(bs, k, n);
    forall i | 0 <= i < |r| ensures Header(r[i], size', isFree', next', prev', bs[k].addr) {
      CutHeaderAt(bs, size, isFree, next, prev, k, n, i, size', isFree', next', prev');
    }
    forall i, j | 0 <= i < j < |r| && j == i + 1
      ensures next'[r[i].addr] == r[j].addr && prev'[r[j].addr] == r[i].addr
    {
      CutLinkAt(bs, size, isFree, next, prev, k, n, i, size', isFree', next', prev');
    }
    CutEnds(bs, size, isFree, next, prev, k, n, size', isFree', next', prev');
  }

  lemma JoinHeaderAt(bs: seq<Block>, size: Ptrs, isFree: map<int, bool>, next: Ptrs, prev: Ptrs, pending: int, k: int,
                     i: int,
                     size': Ptrs, next': Ptrs, prev': Ptrs)
    requires Headers(bs, size, isFree, next, prev, pending) && Placed(bs) && 0 <= k < |bs| - 1 && 0 <= i < |bs| - 1
    requires bs[k].addr in next && bs[k + 1].addr in next && JoinFields(bs, k, size, next, prev, size', next', prev')
    ensures Header(Absorb(bs, k)[i], size', isFree, next', prev', if pending == bs[k + 1].addr then 0 else pending)
  {
    AbsorbIndex(bs, k, i);
    assert Header(bs[if i <= k then i else i + 1], size, isFree, next, prev, pending);
  }

  /** The fields after block `k` swallows block `k + 1`. */
  ghost predicate JoinFields(bs: seq<Block>, k: int, size: Ptrs, next: Ptrs, prev: Ptrs, size': Ptrs, next': Ptrs,
                             prev': Ptrs)
    requires 0 <= k < |bs| - 1 && bs[k].addr in next && bs[k + 1].addr in next
  {
    var block, nx := bs[k].addr, bs[k + 1].addr;
    && size' == size[block := bs[k].size + HEADER + bs[k + 1].size]
    && next' == next[block := next[nx]]
    && prev' == if next[nx] != 0 then prev[next[nx] := block] else prev
  }

  lemma JoinLinkAt(bs: seq<Block>, size: Ptrs, isFree: map<int, bool>, next: Ptrs, prev: Ptrs, pending: int, k: int,
                   i: int,
                   size': Ptrs, next': Ptrs, prev': Ptrs)
    requires Headers(bs, size, isFree, next, prev, pending) && Placed(bs) && 0 <= k < |bs| - 1 && 0 <= i < |bs| - 2
    requires bs[k].addr in next && bs[k + 1].addr in next && JoinFields(bs, k, size, next, prev, size', next', prev')
    ensures var r := Absorb(bs, k);
      && r[i].addr in next' && r[i + 1].addr in prev'
      && next'[r[i].addr] == r[i + 1].addr && prev'[r[i + 1].addr] == r[i].addr
  {
    AbsorbIndex(bs, k, i);
    AbsorbIndex(bs, k, i + 1);
    LinksOut(bs, size, isFree, next, prev, pending, k + 1);
    LinksOut(bs, size, isFree, next, prev, pending, if i <= k then i else i + 1);
    LinksOut(bs, size, isFree, next, prev, pending, if i < k then i + 1 else i + 2);
  }

  lemma JoinEnds(bs: seq<Block>, size: Ptrs, isFree: map<int, bool>, next: Ptrs, prev: Ptrs, pending: int, k: int,
                 size': Ptrs, next': Ptrs, prev': Ptrs)
    requires Headers(bs, size, isFree, next, prev, pending) && Placed(bs) && 0 <= k < |bs| - 1
    requires bs[k].addr in next && bs[k + 1].addr in next && JoinFields(bs, k, size, next, prev, size', next', prev')
    ensures var r := Absorb(bs, k);
      && r[0].addr in prev' && r[|bs| - 2].addr in next' && prev'[r[0].addr] == 0 && next'[r[|bs| - 2].addr] == 0
  {
    AbsorbIndex(bs, k, 0);
    AbsorbIndex(bs, k, |bs| - 2);
    LinksOut(bs, size, isFree, next, prev, pending, k + 1);
    LinksOut(bs, size, isFree, next, prev, pending, 0);
    LinksOut(bs, size, isFree, next, prev, pending, |bs| - 1);
  }

  lemma HeadersAbsorb(bs: seq<Block>, size: Ptrs, isFree: map<int, bool>, next: Ptrs, prev: Ptrs, pending: int, k: int,
                      size': Ptrs, next': Ptrs, prev': Ptrs)
    requires Headers(bs, size, isFree, next, prev, pending) && Placed(bs) && 0 <= k < |bs| - 1
    requires bs[k].addr in next && bs[k + 1].addr in next && JoinFields(bs, k, size, next, prev, size', next', prev')
    ensures Headers(Absorb(bs, k), size', isFree, next', prev', if pending == bs[k + 1].addr then 0 else pending)
  {
    var r := Absorb(bs, k);
    forall i | 0 <= i < |r|
      ensures Header(r[i], size', isFree, next', prev', if pending == bs[k + 1].addr then 0 else pending)
    {
      JoinHeaderAt(bs, size, isFree, next, prev, pending, k, i, size', next', prev');
    }
    forall i, j | 0 <= i < j < |r| && j == i + 1
      ensures next'[r[i].addr] == r[j].addr && prev'[r[j].addr] == r[i].addr
    {
      JoinLinkAt(bs, size, isFree, next, prev, pending, k, i, size', next', prev');
    }
    JoinEnds(bs, size, isFree, next, prev, pending, k, size', next', prev');
  }

  /** All a merge with the next block needs and keeps. */
  lemma AbsorbStep(bs: seq<Block>, lists: seq<seq<int>>, size: Ptrs, isFree: map<int, bool>, next: Ptrs, prev: Ptrs,
                   pending: int, k: int)
    requires 0 <= k < |bs| - 1 && Headers(bs, size, isFree, next, prev, pending) && Tiles(bs) && Listed(lists, bs)
    requires !bs[k].free && !bs[k + 1].free
    ensures Tiles(Absorb(bs, k)) && Listed(lists, Absorb(bs, k))
    ensures var block, nx := bs[k].addr, bs[k + 1].addr;
      && block in size && block in next && nx in size && nx in next && next[block] == nx && block != nx && nx != 0
      && size[block] == bs[k].size && size[nx] == bs[k + 1].size
    ensures forall size', next', prev' :: JoinFields(bs, k, size, next, prev, size', next', prev') ==>
      Headers(Absorb(bs, k), size', isFree, next', prev', if pending == bs[k + 1].addr then 0 else pending)
  {
    TilesPlaced(bs);
    LinksOut(bs, size, isFree, next, prev, pending, k);
    LinksOut(bs, size, isFree, next, prev, pending, k + 1);
    forall size', next', prev' | JoinFields(bs, k, size, next, prev, size', next', prev')
      ensures Headers(Absorb(bs, k), size', isFree, next', prev', if pending == bs[k + 1].addr then 0 else pending)
    {
      HeadersAbsorb(bs, size, isFree, next, prev, pending, k, size', next', prev');
    }
    AbsorbKeepsTiles(bs, k);
    ListedAbsorb(lists, bs, k);
  }

  /** All taking block `k` off its list needs and keeps. */
  lemma TakeStep(bs: seq<Block>, lists: seq<seq<int>>, size: Ptrs, isFree: map<int, bool>, next: Ptrs, prev: Ptrs,
                 k: int)
    requires Headers(bs, size, isFree, next, prev, 0) && Tiles(bs) && Listed(lists, bs) && 0 <= k < |bs| && bs[k].free
    ensures bs[k].addr in size && size[bs[k].addr] == bs[k].size && bs[k].addr in lists[BinIndex(bs[k].size)]
    ensures Headers(Mark(bs, k, false), size, isFree, next, prev, bs[k].addr) && Tiles(Mark(bs, k, false))
  {
    FitIsListed(lists, bs, k, bs[k].size);
    TilesPlaced(bs);
    HeadersSuspend(bs, size, isFree, next, prev, k);
    assert Header(bs[k], size, isFree, next, prev, 0);
  }

  /** All listing block `k` as free needs and keeps. */
  lemma PutStep(bs: seq<Block>, lists: seq<seq<int>>, size: Ptrs, isFree: map<int, bool>, next: Ptrs, prev: Ptrs,
                pending: int, k: int)
    requires Headers(bs, size, isFree, next, prev, pending) && Tiles(bs) && Listed(lists, bs) && 0 <= k < |bs|
    requires !bs[k].free
    requires pending == 0 || pending == bs[k].addr
    ensures bs[k].addr != 0 && bs[k].addr in size && size[bs[k].addr] == bs[k].size
    ensures forall c :: 0 <= c < |lists| ==> bs[k].addr !in lists[c]
    ensures Headers(Mark(bs, k, true), size, isFree[bs[k].addr := true], next, prev, 0) && Tiles(Mark(bs, k, true))
    ensures var b := BinIndex(bs[k].size); Listed(lists[b := [bs[k].addr] + lists[b]], Mark(bs, k, true))
  {
    TilesPlaced(bs);
    HeadersFlag(bs, size, isFree, next, prev, pending, k, true);
    assert Header(bs[k], size, isFree, next, prev, pending);
    UsedNotListed(lists, bs, k);
    ListedPut(lists, bs, k);
  }

  lemma MembersWithout(L: seq<int>, k: int)
    requires Distinct(L) && 0 <= k < |L|
    ensures Members(Without(L, k)) == Members(L) - {L[k]}
  {
    forall a ensures a in Without(L, k) <==> a in L && a != L[k] { WithoutMembers(L, k, a); }
  }

  /** The pointer writes of remove_free_block, as values. */
  lemma UnlinkFree(lists: seq<seq<int>>, bins: seq<int>, fwd: Ptrs, bwd: Ptrs, b: int, x: int) returns (k: int)
    requires Bins(lists, bins, fwd, bwd) && 0 <= b < |lists| && x in lists[b]
    ensures 0 <= k < |lists[b]| && Members(Without(lists[b], k)) == Members(lists[b]) - {x}
    ensures x in fwd && x in bwd && x != bwd[x]
    ensures Bins(lists[b := Without(lists[b], k)], if bwd[x] != 0 then bins else bins[b := fwd[x]],
                 if bwd[x] != 0 then fwd[bwd[x] := fwd[x]] else fwd, if fwd[x] != 0 then bwd[fwd[x] := bwd[x]] else bwd)
  {
    var L := lists[b];
    k :| 0 <= k < |L| && L[k] == x;
    DListAt(L, fwd, bwd, k);
    BinsRemove(lists, bins, fwd, bwd, b, k, if k > 0 then bins else bins[b := At(L, 1)],
               if k > 0 then fwd[L[k - 1] := At(L, k + 1)] else fwd,
               if k + 1 < |L| then bwd[L[k + 1] := At(L, k - 1)] else bwd);
    MembersWithout(L, k);
  }

  lemma ListedTake(lists: seq<seq<int>>, lists': seq<seq<int>>, bs: seq<Block>, k: int)
    requires Listed(lists, bs) && Tiles(bs) && 0 <= k < |bs| && bs[k].free && |lists'| == NUM_BINS
    requires var b := BinIndex(bs[k].size);
      && Members(lists'[b]) == Members(lists[b]) - {bs[k].addr}
      && forall c :: 0 <= c < NUM_BINS && c != b ==> lists'[c] == lists[c]
    ensures Listed(lists', Mark(bs, k, false))
  {
    forall c | 0 <= c < NUM_BINS ensures Members(lists'[c]) == Addrs(Mark(bs, k, false), c) {
      AddrsUpdate(bs, k, bs[k].(free := false), c);
    }
  }

  lemma ListedPut(lists: seq<seq<int>>, bs: seq<Block>, k: int)
    requires Listed(lists, bs) && Tiles(bs) && 0 <= k < |bs| && !bs[k].free
    ensures var b := BinIndex(bs[k].size);
      Listed(lists[b := [bs[k].addr] + lists[b]], Mark(bs, k, true))
  {
    forall c | 0 <= c < NUM_BINS
      ensures var b := BinIndex(bs[k].size);
        Members(lists[b := [bs[k].addr] + lists[b]][c]) == Addrs(Mark(bs, k, true), c)
    {
      AddrsUpdate(bs, k, bs[k].(free := true), c);
    }
  }

  lemma ListedSplit(lists: seq<seq<int>>, bs: seq<Block>, k: int, n: int)
    requires Listed(lists, bs) && 0 <= k < |bs| && !bs[k].free
    ensures var tail := SplitAt(bs, k, n)[k + 1];
      var b := BinIndex(tail.size);
      Listed(lists[b := [tail.addr] + lists[b]], SplitAt(bs, k, n))
  {
    SplitIndex(bs, k, n, k + 1);
    forall c | 0 <= c < NUM_BINS
      ensures var tail := SplitAt(bs, k, n)[k + 1];
        var b := BinIndex(tail.size);
        Members(lists[b := [tail.addr] + lists[b]][c]) == Addrs(SplitAt(bs, k, n), c)
    {
      AddrsSplit(bs, k, n, c);
    }
  }

  lemma ListedAbsorb(lists: seq<seq<int>>, bs: seq<Block>, k: int)
    requires Listed(lists, bs) && Tiles(bs) && 0 <= k < |bs| - 1 && !bs[k].free && !bs[k + 1].free
    ensures Listed(lists, Absorb(bs, k))
  {
    forall c | 0 <= c < NUM_BINS ensures Members(lists[c]) == Addrs(Absorb(bs, k), c) {
      AddrsAbsorb(bs, k, c);
      AddrsUpdate(bs, k + 1, bs[k + 1], c);
    }
  }

  /** A block that fits is on the list of its bin, which is not below the bin of the request. */
  lemma FitIsListed(lists: seq<seq<int>>, bs: seq<Block>, j: int, n: int)
    requires Listed(lists, bs) && 0 <= j < |bs| && Fits(bs[j], n)
    ensures BinIndex(n) <= BinIndex(bs[j].size) && bs[j].addr in lists[BinIndex(bs[j].size)]
  {
    BinMonotone(n, bs[j].size);
    AddrsHas(bs, |bs|, j);
  }

  lemma ListedIsBlock(lists: seq<seq<int>>, bs: seq<Block>, c: int, a: int) returns (k: int)
    requires Listed(lists, bs) && 0 <= c < NUM_BINS && a in lists[c]
    ensures 0 <= k < |bs| && bs[k].addr == a && bs[k].free && BinIndex(bs[k].size) == c
  {
    assert a in Members(lists[c]);
    k := AddrsMember(bs, |bs|, c, a);
  }

  /** What kmalloc needs to know of the block it takes. */
  lemma AllocStep(bs: seq<Block>, size: Ptrs, isFree: map<int, bool>, next: Ptrs, prev: Ptrs, k: int, n: int)
    requires Headers(bs, size, isFree, next, prev, 0) && 0 <= k < |bs| && Fits(bs[k], n)
    ensures bs[k].addr in size && size[bs[k].addr] == bs[k].size
    ensures |AllocAt(bs, k, n)| > k && AllocAt(bs, k, n)[k].addr == bs[k].addr && !AllocAt(bs, k, n)[k].free
  {
    assert Header(bs[k], size, isFree, next, prev, 0);
    SplitIndex(Mark(bs, k, false), k, n, k);
  }

  lemma SplitLists(bs: seq<Block>, lists: seq<seq<int>>, k: int, n: int)
    requires 0 <= k < |bs| && Tiles(bs) && Listed(lists, bs) && !bs[k].free && 0 <= n && bs[k].size > n + HEADER + 16
    ensures var x := bs[k].addr + HEADER + n;
      var b := BinIndex(bs[k].size - n - HEADER);
      && (forall c :: 0 <= c < |lists| ==> x !in lists[c])
      && Listed(lists[b := [x] + lists[b]], SplitAt(bs, k, n))
      && Tiles(SplitAt(bs, k, n))
  {
    NotInside(bs, k, bs[k].addr + HEADER + n);
    NotListed(lists, bs, bs[k].addr + HEADER + n);
    ListedSplit(lists, bs, k, n);
    SplitKeepsTiles(bs, k, n);
    SplitIndex(bs, k, n, k + 1);
  }

  lemma SplitHeaders(bs: seq<Block>, size: Ptrs, isFree: map<int, bool>, next: Ptrs, prev: Ptrs, k: int, n: int)
    requires 0 <= k < |bs| && Headers(bs, size, isFree, next, prev, bs[k].addr) && Tiles(bs)
    requires 0 <= n && bs[k].size > n + HEADER + 16
    ensures bs[k].addr in size && bs[k].addr in next && size[bs[k].addr] == bs[k].size && bs[k].addr > 0
    ensures forall size', isFree', next', prev' ::
      CutFields(bs, k, n, size, isFree, next, prev, size', isFree', next', prev') ==>
      Headers(SplitAt(bs, k, n), size', isFree', next', prev', bs[k].addr)
  {
    TilesPlaced(bs);
    NotInside(bs, k, bs[k].addr + HEADER + n);
    LinksOut(bs, size, isFree, next, prev, bs[k].addr, k);
    forall size', isFree', next', prev' | CutFields(bs, k, n, size, isFree, next, prev, size', isFree', next', prev')
      ensures Headers(SplitAt(bs, k, n), size', isFree', next', prev', bs[k].addr)
    {
      HeadersSplit(bs, size, isFree, next, prev, k, n, size', isFree', next', prev');
    }
  }

  function PageAlign(a: int): (r: int)
    ensures r % 4096 == 0 && a <= r < a + 4096
  {
    (a + 4095) / 4096 * 4096
  }

  /** What kmalloc_a asks of kmalloc, after both roundings. */
  function AlignedSize(request: int): (n: int)
    requires 0 <= request < WORD
    ensures 0 <= n < WORD && n % 4 == 0
  {
    Rounded((request + 4100) % WORD)
  }

  /** The word before the aligned address is inside a block of `n` bytes wherever it starts, exactly from a page on. */
  lemma AlignedInside(raw: int, n: int)
    requires raw % 4 == 0 && n % 4 == 0
    ensures raw + 4 <= PageAlign(raw + 4) <= raw + 4096
    ensures n >= 4096 ==> PageAlign(raw + 4) <= raw + n
  {
    var q, r := PageAlign(raw + 4) / 4096, raw / 4;
    var d := 1024 * q - r;
    assert PageAlign(raw + 4) == 4 * (1024 * q) && raw == 4 * r;
    assert PageAlign(raw + 4) - raw == 4 * d;
  }

  /** Where kmalloc_a puts its payload in a block at `raw`. */
  ghost predicate PlacedIn(ptr: int, raw: int, request: int)
    requires 0 <= request < WORD
  {
    && ptr % 4096 == 0 && raw <= ptr - 4
    && (AlignedSize(request) >= 4096 ==> ptr <= raw + AlignedSize(request))
    && (request <= 0xFFFFFFFC - 4100 ==> ptr + request <= raw + AlignedSize(request))
  }

  lemma AlignedPlace(raw: int, request: int)
    requires raw % 4 == 0 && 0 <= request < WORD
    ensures PlacedIn(PageAlign(raw + 4), raw, request)
  {
    AlignedInside(raw, AlignedSize(request));
    if request <= 0xFFFFFFFC - 4100 { assert (request + 4100) % WORD == request + 4100; }
  }

  /** A request wraps to less than a page only in a narrow range near 2^32. */
  lemma WrapRange(request: int)
    requires 0 <= request < WORD
    ensures AlignedSize(request) >= 4096 <==> request <= 0xFFFFFFFC - 4100 || request >= WORD - 7
    ensures request == WORD - 4100 ==> AlignedSize(request) == 0
  {}

  /** The heap after one allocation that brings the next payload to `n + 4` bytes before a page boundary. */
  function Prepared(n: int): seq<Block> { AllocAt(Initial, 0, 8192 - (n + 60)) }

  /**
   For every smaller size there is a heap, reached by one allocation, on which the back
   pointer is written over the header of the next block.
   */
  lemma WrapHitsHeader(n: int)
    requires 0 <= n < 4096 && n % 4 == 0
    ensures var bs := Prepared(n);
      && Inv(bs) && |bs| == 2 && Fits(bs[1], n)
      && var bs', raw := AllocAt(bs, 1, n), bs[1].addr + HEADER;
         |bs'| == 3 && PageAlign(raw + 4) - 4 == bs'[2].addr
  {
    var s := 8192 - (n + 60);
    AllocKeepsInv(Initial, 0, s);
    var bs := Prepared(n);
    assert bs[1] == Block(HEAP_START + HEADER + s, HEAP_SIZE - HEADER - s - HEADER, true);
    var raw := bs[1].addr + HEADER;
    assert raw + 4 + n == HEAP_START + 8192;
    PageOf(raw + 4, HEAP_START / 4096 + 2);
  }

  lemma PageOf(a: int, page: int)
    requires page * 4096 - 4096 < a <= page * 4096
    ensures PageAlign(a) == page * 4096
  {}

  /**
   The answer to a request for `n` bytes: NULL exactly when no free block has them, and then nothing
   changes; otherwise the payload of block `k`, from the lowest bin that has one, which is taken.
   */
  ghost predicate Handed(bs: seq<Block>, bs': seq<Block>, n: int, ptr: int, k: int) {
    && (ptr == 0 <==> forall i :: 0 <= i < |bs| ==> !Fits(bs[i], n))
    && (ptr == 0 ==> bs' == bs)
    && (ptr != 0 ==> 0 <= k < |bs| && Fits(bs[k], n) && ptr == bs[k].addr + HEADER && bs' == AllocAt(bs, k, n))
    && (ptr != 0 ==> forall i :: 0 <= i < |bs| && Fits(bs[i], n) ==> BinIndex(bs[k].size) <= BinIndex(bs[i].size))
  }

  lemma HandedAligned(bs: seq<Block>, bs': seq<Block>, n: int, ptr: int, k: int)
    requires Tiles(bs) && Aligned(bs) && Handed(bs, bs', n, ptr, k)
    ensures ptr % 4 == 0 && ptr >= 0
  {
    if ptr != 0 {
      FourAligned(bs, k);
      Bounds(bs, k);
    }
  }

  // ----- The allocator -----

  class Kernel {
    var size: Ptrs
    var isFree: map<int, bool>
    var next: Ptrs
    var prev: Ptrs
    var freeNext: Ptrs
    var freePrev: Ptrs
    var bins: seq<int>
    /** The word in front of each page-aligned pointer (kmalloc_a). */
    var backPointer: Ptrs

    ghost var blocks: seq<Block>
    ghost var lists: seq<seq<int>>

    ghost predicate Linked(pending: int)
      reads `size, `isFree, `next, `prev, `freeNext, `freePrev, `bins, `blocks, `lists
    {
      && Headers(blocks, size, isFree, next, prev, pending)
      && Tiles(blocks)
      && Bins(lists, bins, freeNext, freePrev)
      && Listed(lists, blocks)
    }

    ghost predicate Valid()
      reads `size, `isFree, `next, `prev, `freeNext, `freePrev, `bins, `blocks, `lists
    {
      Linked(0) && Coalesced(blocks) && Aligned(blocks)
    }

    constructor HeapInit()
      ensures Valid() && blocks == Initial
    {
      var start := HEAP_START;
      bins := seq(NUM_BINS, _ => 0)[BinIndex(HEAP_SIZE - HEADER) := start];
      size := map[start := HEAP_SIZE - HEADER];
      isFree := map[start := true];
      next := map[start := 0];
      prev := map[start := 0];
      freeNext := map[start := 0];
      freePrev := map[start := 0];
      backPointer := map[];
      blocks := Initial;
      lists := seq(NUM_BINS, _ => [])[BinIndex(HEAP_SIZE - HEADER) := [start]];
      new;
      forall b | 0 <= b < NUM_BINS ensures Members(lists[b]) == Addrs(blocks, b) { AddrsOfOne(blocks[0], b); }
    }

    method InsertFreeBlock(block: int)
      requires block != 0 && block in size && |lists| == NUM_BINS
      requires Bins(lists, bins, freeNext, freePrev)
      requires forall c :: 0 <= c < |lists| ==> block !in lists[c]
      modifies `bins, `freeNext, `freePrev, `lists
      ensures Bins(lists, bins, freeNext, freePrev)
      ensures var b := BinIndex(size[block]); lists == old(lists)[b := [block] + old(lists)[b]]
    {
      var bin := BinIndex(size[block]);
      BinsInsert(lists, bins, freeNext, freePrev, bin, block, freeNext[block := bins[bin]],
                 if bins[bin] != 0 then freePrev[block := 0][bins[bin] := block] else freePrev[block := 0]);
      freeNext := freeNext[block := bins[bin]];
      freePrev := freePrev[block := 0];
      if bins[bin] != 0 {
        freePrev := freePrev[bins[bin] := block];
      }
      bins := bins[bin := block];
      lists := lists[bin := [block] + lists[bin]];
    }

    method RemoveFreeBlock(block: int)
      requires block in size && |lists| == NUM_BINS && block in lists[BinIndex(size[block])]
      requires Bins(lists, bins, freeNext, freePrev)
      modifies `bins, `freeNext, `freePrev, `lists
      ensures Bins(lists, bins, freeNext, freePrev) && |lists| == NUM_BINS
      ensures var b := BinIndex(size[block]);
        && Members(lists[b]) == Members(old(lists)[b]) - {block}
        && forall c :: 0 <= c < NUM_BINS && c != b ==> lists[c] == old(lists)[c]
    {
      var bin := BinIndex(size[block]);
      ghost var k := UnlinkFree(lists, bins, freeNext, freePrev, bin, block);
      if freePrev[block] != 0 {
        freeNext := freeNext[freePrev[block] := freeNext[block]];
      } else {
        bins := bins[bin := freeNext[block]];
      }
      if freeNext[block] != 0 {
        freePrev := freePrev[freeNext[block] := freePrev[block]];
      }
      lists := lists[bin := Without(lists[bin], k)];
    }

    method FindFit(n: int) returns (found: int, ghost k: int)
      requires Linked(0)
      ensures found == 0 ==> forall i :: 0 <= i < |blocks| ==> !Fits(blocks[i], n)
      ensures found != 0 ==> 0 <= k < |blocks| && blocks[k].addr == found && Fits(blocks[k], n)
      ensures found != 0 ==>
        forall i :: 0 <= i < |blocks| && Fits(blocks[i], n) ==> BinIndex(blocks[k].size) <= BinIndex(blocks[i].size)
    {
      var start := BinIndex(n);
      var i := start;
      found, k := 0, 0;
      while i < NUM_BINS && found == 0
        invariant start <= i <= NUM_BINS
        invariant forall b, a :: start <= b < i && a in lists[b] ==> a in size && size[a] < n
        invariant found != 0 ==>
          i < NUM_BINS && 0 <= k < |blocks| && blocks[k].addr == found && Fits(blocks[k], n)
            && BinIndex(blocks[k].size) == i
        decreases NUM_BINS - i, found == 0
      {
        found, k := FindInBin(i, n);
        if found == 0 {
          i := i + 1;
        }
      }
      forall j | 0 <= j < |blocks| && Fits(blocks[j], n) ensures i <= BinIndex(blocks[j].size) < NUM_BINS {
        FitIsListed(lists, blocks, j, n);
        assert Header(blocks[j], size, isFree, next, prev, 0);
      }
    }

    method FindInBin(i: int, n: int) returns (found: int, ghost k: int)
      requires Linked(0) && 0 <= i < NUM_BINS
      ensures found == 0 ==> forall a :: a in lists[i] ==> a in size && size[a] < n
      ensures found != 0 ==>
        0 <= k < |blocks| && blocks[k].addr == found && Fits(blocks[k], n) && BinIndex(blocks[k].size) == i
    {
      found, k := 0, 0;
      var curr := bins[i];
      ghost var L := lists[i];
      ghost var p := 0;
      while curr != 0
        invariant 0 <= p <= |L| && curr == At(L, p)
        invariant forall j :: 0 <= j < p ==> L[j] in size && size[L[j]] < n
        decreases |L| - p
      {
        k := ListedIsBlock(lists, blocks, i, L[p]);
        assert Header(blocks[k], size, isFree, next, prev, 0);
        if size[curr] >= n {
          found := curr;
          return;
        }
        assert p + 1 < |L| ==> freeNext[L[p]] == L[p + 1];
        curr := freeNext[curr];
        p := p + 1;
      }
    }

    /** Takes free block `k` off its list; from here it counts as used. */
    method Take(block: int, ghost k: int)
      requires Linked(0) && 0 <= k < |blocks| && blocks[k].addr == block && blocks[k].free
      modifies `bins, `freeNext, `freePrev, `lists, `blocks
      ensures Linked(block) && blocks == Mark(old(blocks), k, false)
    {
      TakeStep(blocks, lists, size, isFree, next, prev, k);
      ghost var before := lists;
      RemoveFreeBlock(block);
      ListedTake(before, lists, blocks, k);
      blocks := Mark(blocks, k, false);
    }

    /** The header writes of the split branch of kmalloc. */
    method CutHeader(block: int, n: int, ghost k: int)
      requires 0 <= k < |blocks| && blocks[k].addr == block && 0 <= n
      requires block in size && block in next && size[block] == blocks[k].size
      modifies `size, `isFree, `next, `prev
      ensures CutFields(blocks, k, n, old(size), old(isFree), old(next), old(prev), size, isFree, next, prev)
    {
      var x := block + HEADER + n;
      size := size[x := size[block] - n - HEADER];
      isFree := isFree[x := true];
      next := next[x := next[block]];
      prev := prev[x := block];
      if next[block] != 0 {
        prev := prev[next[block] := x];
      }
      next := next[block := x];
      size := size[block := n];
    }

    /** The split branch of kmalloc. */
    method Split(block: int, n: int, ghost k: int)
      requires Linked(block) && 0 <= k < |blocks| && blocks[k].addr == block && !blocks[k].free
      requires 0 <= n && blocks[k].size > n + HEADER + 16
      modifies `size, `isFree, `next, `prev, `freeNext, `freePrev, `bins, `blocks, `lists
      ensures Linked(block) && blocks == SplitAt(old(blocks), k, n)
    {
      var x := block + HEADER + n;
      SplitLists(blocks, lists, k, n);
      CutBlock(block, n, k);
      InsertFreeBlock(x);
      blocks := SplitAt(blocks, k, n);
    }

    method CutBlock(block: int, n: int, ghost k: int)
      requires 0 <= k < |blocks| && blocks[k].addr == block && 0 <= n && blocks[k].size > n + HEADER + 16
      requires Headers(blocks, size, isFree, next, prev, block) && Tiles(blocks)
      modifies `size, `isFree, `next, `prev
      ensures Headers(SplitAt(blocks, k, n), size, isFree, next, prev, block)
      ensures var x := block + HEADER + n; x > 0 && x in size && size[x] == blocks[k].size - n - HEADER
    {
      SplitHeaders(blocks, size, isFree, next, prev, k, n);
      CutHeader(block, n, k);
    }

    method ClearFlag(block: int, ghost k: int)
      requires Linked(block) && 0 <= k < |blocks| && blocks[k].addr == block && !blocks[k].free
      modifies `isFree
      ensures Linked(0)
    {
      TilesPlaced(blocks);
      HeadersFlag(blocks, size, isFree, next, prev, block, k, false);
      assert Mark(blocks, k, false) == blocks;
      isFree := isFree[block := false];
    }

    /** Hands out free block `k`, cut to `n` bytes when the rest is worth keeping. */
    method Allocate(block: int, n: int, ghost k: int)
      requires Linked(0) && 0 <= k < |blocks| && blocks[k].addr == block && Fits(blocks[k], n) && 0 <= n
      modifies `size, `isFree, `next, `prev, `freeNext, `freePrev, `bins, `blocks, `lists
      ensures Linked(0) && blocks == AllocAt(old(blocks), k, n)
    {
      AllocStep(blocks, size, isFree, next, prev, k, n);
      Take(block, k);
      if size[block] > n + HEADER + 16 {
        Split(block, n, k);
      }
      ClearFlag(block, k);
    }

    method KMalloc(request: int) returns (ptr: int, ghost k: int)
      requires Valid() && 0 <= request < WORD
      modifies `size, `isFree, `next, `prev, `freeNext, `freePrev, `bins, `blocks, `lists
      ensures Valid()
      ensures Handed(old(blocks), blocks, Rounded(request), ptr, k)
      ensures ptr == 0 <==> forall b :: b in old(blocks) && b.free ==> b.size < Rounded(request)
    {
      var n := Rounded(request);
      var found;
      found, k := FindFit(n);
      if found == 0 {
        return 0, 0;
      }
      AllocKeepsInv(blocks, k, n);
      AllocAligned(blocks, k, n);
      Bounds(blocks, k);
      Allocate(found, n, k);
      ptr := found + HEADER;
    }

    /** The header writes of a merge: `block` swallows the block after it. */
    method JoinHeader(block: int, ghost k: int)
      requires 0 <= k < |blocks| - 1 && blocks[k].addr == block && block in next
      requires next[block] == blocks[k + 1].addr != block
      requires next[block] in next && next[block] in size && size[next[block]] == blocks[k + 1].size
      requires block in size && size[block] == blocks[k].size
      modifies `size, `next, `prev
      ensures JoinFields(blocks, k, old(size), old(next), old(prev), size, next, prev)
    {
      size := size[block := size[block] + HEADER + size[next[block]]];
      next := next[block := next[next[block]]];
      if next[block] != 0 {
        prev := prev[next[block] := block];
      }
    }

    method AbsorbNext(block: int, ghost k: int, ghost pending: int)
      requires Linked(pending) && 0 <= k < |blocks| - 1 && blocks[k].addr == block
      requires !blocks[k].free && !blocks[k + 1].free
      modifies `size, `next, `prev, `blocks
      ensures Linked(if pending == old(blocks)[k + 1].addr then 0 else pending)
      ensures blocks == Absorb(old(blocks), k)
    {
      AbsorbStep(blocks, lists, size, isFree, next, prev, pending, k);
      JoinHeader(block, k);
      blocks := Absorb(blocks, k);
    }

    /** Marks used block `k` free and lists it. */
    method Put(block: int, ghost k: int, ghost pending: int)
      requires Linked(pending) && 0 <= k < |blocks| && blocks[k].addr == block && !blocks[k].free
      requires pending == 0 || pending == block
      modifies `isFree, `bins, `freeNext, `freePrev, `lists, `blocks
      ensures Linked(0) && blocks == Mark(old(blocks), k, true)
    {
      PutStep(blocks, lists, size, isFree, next, prev, pending, k);
      isFree := isFree[block := true];
      InsertFreeBlock(block);
      blocks := Mark(blocks, k, true);
    }

    method KFree(ptr: int, ghost k: int)
      requires Valid()
      requires ptr == 0 || (0 <= k < |blocks| && ptr == blocks[k].addr + HEADER)
      modifies `size, `isFree, `next, `prev, `freeNext, `freePrev, `bins, `blocks, `lists
      ensures Valid()
      ensures blocks == if ptr == 0 || old(blocks)[k].free then old(blocks) else FreeAt(old(blocks), k)
    {
      if ptr == 0 {
        return;
      }
      var block := ptr - HEADER;
      LinksOut(blocks, size, isFree, next, prev, 0, k);
      Bounds(blocks, k);
      if isFree[block] {
        return;
      }
      FreeKeepsInv(blocks, k);
      FreeAligned(blocks, k);
      MergeRightKeepsInv(blocks, k);
      JoinRight(block, k);
      JoinLeft(block, k);
    }

    /** First half of kfree: merge with a free block on the right. */
    method JoinRight(block: int, ghost k: int)
      requires Linked(0) && 0 <= k < |blocks| && blocks[k].addr == block && !blocks[k].free
      modifies `size, `next, `prev, `freeNext, `freePrev, `bins, `blocks, `lists
      ensures Linked(0) && blocks == MergeRight(old(blocks), k)
    {
      LinksOut(blocks, size, isFree, next, prev, 0, k);
      if k + 1 < |blocks| {
        LinksOut(blocks, size, isFree, next, prev, 0, k + 1);
        Bounds(blocks, k + 1);
      }
      if next[block] != 0 && isFree[next[block]] {
        ghost var nx := next[block];
        Take(next[block], k + 1);
        AbsorbNext(block, k, nx);
      }
    }

    /** Second half of kfree: merge into a free block on the left, and list the result. */
    method JoinLeft(block: int, ghost k: int)
      requires Linked(0) && 0 <= k < |blocks| && blocks[k].addr == block && !blocks[k].free
      modifies `size, `isFree, `next, `prev, `freeNext, `freePrev, `bins, `blocks, `lists
      ensures Linked(0) && blocks == MergeLeft(old(blocks), k)
    {
      LinksOut(blocks, size, isFree, next, prev, 0, k);
      if k > 0 {
        LinksOut(blocks, size, isFree, next, prev, 0, k - 1);
        Bounds(blocks, k - 1);
        Ordered(blocks, k - 1, k);
      }
      var p := prev[block];
      if p != 0 && isFree[p] {
        Take(p, k - 1);
        AbsorbNext(p, k - 1, p);
        AbsorbIndex(Mark(old(blocks), k - 1, false), k - 1, k - 1);
        Put(p, k - 1, p);
      } else {
        Put(block, k, 0);
      }
    }

    /** get_used_memory: the payload bytes of the used blocks. */
    method UsedMemory() returns (used: int)
      requires Valid()
      ensures used == UsedBytes(blocks)
    {
      used := 0;
      var curr := HEAP_START;
      ghost var i := 0;
      while curr != 0
        invariant 0 <= i <= |blocks|
        invariant curr == if i < |blocks| then blocks[i].addr else 0
        invariant i < |blocks| ==> curr != 0
        invariant used + UsedBytes(blocks[i..]) == UsedBytes(blocks)
        decreases |blocks| - i
      {
        LinksOut(blocks, size, isFree, next, prev, 0, i);
        assert blocks[i..][1..] == blocks[i + 1..];
        if !isFree[curr] {
          used := used + size[curr];
        }
        curr := next[curr];
        i := i + 1;
        if i < |blocks| { Bounds(blocks, i); }
      }
    }

    /**
     kmalloc_a: a page-aligned payload with the raw pointer in the word before it.  That word is
     inside the block, and the heap intact, when the size asked of kmalloc does not wrap to
     less than a page; see `WrapHitsHeader` for when it does.
     */
    method KMallocA(request: int) returns (ptr: int, ghost raw: int, ghost k: int)
      requires Valid() && 0 <= request < WORD
      modifies `size, `isFree, `next, `prev, `freeNext, `freePrev, `bins, `blocks, `lists, `backPointer
      ensures ptr == 0 || AlignedSize(request) >= 4096 ==> Valid()
      ensures Handed(old(blocks), blocks, AlignedSize(request), raw, k) && (ptr == 0 <==> raw == 0)
      ensures ptr != 0 ==> PlacedIn(ptr, raw, request) && ptr - 4 in backPointer && backPointer[ptr - 4] == raw
    {
      ghost var bs := blocks;
      var block;
      block, k := KMalloc((request + 4100) % WORD);
      raw := block;
      if block == 0 {
        return 0, 0, k;
      }
      HandedAligned(bs, blocks, AlignedSize(request), block, k);
      AlignedPlace(block, request);
      ptr := PageAlign(block + 4);
      backPointer := backPointer[ptr - 4 := block];
    }

    /** kfree_a, given the back pointer kmalloc_a stored. */
    method KFreeA(ptr: int, ghost k: int)
      requires Valid()
      requires ptr == 0 || (ptr - 4 in backPointer && 0 <= k < |blocks|
        && backPointer[ptr - 4] == blocks[k].addr + HEADER)
      modifies `size, `isFree, `next, `prev, `freeNext, `freePrev, `bins, `blocks, `lists
      ensures Valid()
      ensures blocks == if ptr == 0 || old(blocks)[k].free then old(blocks) else FreeAt(old(blocks), k)
    {
      if ptr == 0 {
        return;
      }
      Bounds(blocks, k);
      KFree(backPointer[ptr - 4], k);
    }
  }
}
