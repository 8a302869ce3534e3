/**
 Doubly linked lists over addresses, one map per header field (`NULL` is address 0).
 `ghost` sequences name the nodes in order; the lemmas say what the pointer writes
 of `memory.c` do to them.
 */
module HeapLists {
  type Ptrs = map<int, int>

  function At(L: seq<int>, i: int): int {
    if 0 <= i < |L| then L[i] else 0
  }

  function Without(L: seq<int>, k: int): seq<int>
    requires 0 <= k < |L|
  {
    L[..k] + L[k + 1..]
  }

  ghost predicate Distinct(L: seq<int>) {
    forall i, j :: 0 <= i < j < |L| ==> L[i] != L[j]
  }

  /** `fwd` and `bwd` link the nodes of `L` in order, with `NULL` at both ends. */
  ghost predicate DList(L: seq<int>, fwd: Ptrs, bwd: Ptrs) {
    && Distinct(L)
    && (forall k :: 0 <= k < |L| ==> L[k] != 0 && L[k] in fwd && L[k] in bwd)
    && (forall i, j :: 0 <= i < j < |L| && j == i + 1 ==> fwd[L[i]] == L[j] && bwd[L[j]] == L[i])
    && (|L| > 0 ==> bwd[L[0]] == 0 && fwd[L[|L| - 1]] == 0)
  }

  // ----- One list -----

  lemma DListFrame(L: seq<int>, fwd: Ptrs, bwd: Ptrs, fwd': Ptrs, bwd': Ptrs)
    requires DList(L, fwd, bwd)
    requires forall a :: a in L ==> a in fwd' && a in bwd' && fwd'[a] == fwd[a] && bwd'[a] == bwd[a]
    ensures DList(L, fwd', bwd')
  {}

  /** The neighbours of node `k`. */
  lemma DListAt(L: seq<int>, fwd: Ptrs, bwd: Ptrs, k: int)
    requires DList(L, fwd, bwd) && 0 <= k < |L|
    ensures L[k] in fwd && L[k] in bwd && fwd[L[k]] == At(L, k + 1) && bwd[L[k]] == At(L, k - 1)
    ensures (At(L, k + 1) != 0 <==> k + 1 < |L|) && (At(L, k - 1) != 0 <==> k > 0) && At(L, k - 1) != L[k]
  {}

  /** Inserting `x` after position `k - 1`, that is, before position `k`. */
  lemma DListInsert(L: seq<int>, k: int, x: int, fwd: Ptrs, bwd: Ptrs, fwd': Ptrs, bwd': Ptrs)
    requires DList(L, fwd, bwd) && 0 <= k <= |L| && x != 0 && x !in L
    requires fwd' == if k > 0 then fwd[x := At(L, k)][L[k - 1] := x] else fwd[x := At(L, k)]
    requires bwd' == if k < |L| then bwd[x := At(L, k - 1)][L[k] := x] else bwd[x := At(L, k - 1)]
    ensures DList(L[..k] + [x] + L[k..], fwd', bwd')
  {
    var M := L[..k] + [x] + L[k..];
    assert M[k] == x;
    assert forall i :: 0 <= i < k ==> M[i] == L[i];
    assert forall i :: k < i < |M| ==> M[i] == L[i - 1];
  }

  lemma DListRemove(L: seq<int>, k: int, fwd: Ptrs, bwd: Ptrs, fwd': Ptrs, bwd': Ptrs)
    requires DList(L, fwd, bwd) && 0 <= k < |L|
    requires fwd' == if k > 0 then fwd[L[k - 1] := At(L, k + 1)] else fwd
    requires bwd' == if k + 1 < |L| then bwd[L[k + 1] := At(L, k - 1)] else bwd
    ensures DList(Without(L, k), fwd', bwd')
  {
    var M := Without(L, k);
    assert forall i :: 0 <= i < k ==> M[i] == L[i];
    assert forall i :: k <= i < |M| ==> M[i] == L[i + 1];
  }

  // ----- The segregated lists -----

  /** `heads[b]` is the first node of `lists[b]`; no address is on two lists or twice on one. */
  ghost predicate Bins(lists: seq<seq<int>>, heads: seq<int>, fwd: Ptrs, bwd: Ptrs) {
    && |lists| == |heads|
    && (forall b :: 0 <= b < |lists| ==> heads[b] == At(lists[b], 0) && DList(lists[b], fwd, bwd))
    && forall b, c, a :: 0 <= b < c < |lists| && a in lists[b] ==> a !in lists[c]
  }

  lemma BinsInsert(lists: seq<seq<int>>, heads: seq<int>, fwd: Ptrs, bwd: Ptrs, b: int, x: int,
                   fwd': Ptrs, bwd': Ptrs)
    requires Bins(lists, heads, fwd, bwd) && 0 <= b < |lists| && x != 0
    requires forall c :: 0 <= c < |lists| ==> x !in lists[c]
    requires fwd' == fwd[x := heads[b]]
    requires bwd' == if heads[b] != 0 then bwd[x := 0][heads[b] := x] else bwd[x := 0]
    ensures Bins(lists[b := [x] + lists[b]], heads[b := x], fwd', bwd')
  {
    var L := lists[b];
    DListInsert(L, 0, x, fwd, bwd, fwd', bwd');
    assert L[..0] + [x] + L[0..] == [x] + L;
    forall c | 0 <= c < |lists| && c != b ensures DList(lists[c], fwd', bwd') {
      assert forall a :: a in lists[c] ==> a !in L;
      DListFrame(lists[c], fwd, bwd, fwd', bwd');
    }
  }

  lemma BinsRemove(lists: seq<seq<int>>, heads: seq<int>, fwd: Ptrs, bwd: Ptrs, b: int, k: int,
                   heads': seq<int>, fwd': Ptrs, bwd': Ptrs)
    requires Bins(lists, heads, fwd, bwd) && 0 <= b < |lists| && 0 <= k < |lists[b]|
    requires heads' == if k > 0 then heads else heads[b := At(lists[b], 1)]
    requires fwd' == if k > 0 then fwd[lists[b][k - 1] := At(lists[b], k + 1)] else fwd
    requires bwd' == if k + 1 < |lists[b]| then bwd[lists[b][k + 1] := At(lists[b], k - 1)] else bwd
    ensures Bins(lists[b := Without(lists[b], k)], heads', fwd', bwd')
  {
    var L := lists[b];
    DListRemove(L, k, fwd, bwd, fwd', bwd');
    assert forall a :: a in Without(L, k) ==> a in L;
    assert At(Without(L, k), 0) == if k > 0 then L[0] else At(L, 1);
    forall c | 0 <= c < |lists| && c != b ensures DList(lists[c], fwd', bwd') {
      assert forall a :: a in lists[c] ==> a !in L;
      DListFrame(lists[c], fwd, bwd, fwd', bwd');
    }
  }

  lemma WithoutMembers(L: seq<int>, k: int, a: int)
    requires Distinct(L) && 0 <= k < |L|
    ensures a in Without(L, k) <==> a in L && a != L[k]
  {
    if a in L && a != L[k] {
      var i :| 0 <= i < |L| && L[i] == a;
      assert Without(L, k)[if i < k then i else i - 1] == a;
    }
  }
}
