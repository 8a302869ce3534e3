/**
 The edge sort of the font rasteriser (disk/include/stb_truetype.h): a quicksort
 whose scans test no bounds, finished by an insertion sort.
 */
module EdgeSort {
  datatype Edge = Edge(x0: real, y0: real, x1: real, y1: real, invert: int)

  /** STBTT__COMPARE */
  predicate Less(a: Edge, b: Edge) { a.y0 < b.y0 }

  ghost predicate Sorted(s: seq<Edge>) {
    forall i, j :: 0 <= i < j < |s| ==> !Less(s[j], s[i])
  }

  /** `s` with two elements exchanged. */
  function Swapped(s: seq<Edge>, i: int, j: int): seq<Edge>
    requires 0 <= i < |s| && 0 <= j < |s|
  {
    s[i := s[j]][j := s[i]]
  }

  lemma SwapPermutes(s: seq<Edge>, i: int, j: int)
    requires 0 <= i < |s| && 0 <= j < |s|
    ensures multiset(Swapped(s, i, j)) == multiset(s)
  {}

  method Swap(a: array<Edge>, i: int, j: int)
    requires 0 <= i < a.Length && 0 <= j < a.Length
    modifies a
    ensures multiset(a[..]) == multiset(old(a[..]))
    ensures a[i] == old(a[j]) && a[j] == old(a[i])
    ensures forall k :: 0 <= k < a.Length && k != i && k != j ==> a[k] == old(a[k])
  {
    ghost var was := a[..];
    SwapPermutes(was, i, j);
    var t := a[i];
    a[i] := a[j];
    a[j] := t;
    assert a[..] == Swapped(was, i, j);
  }

  // ----- Insertion sort -----

  /**
   The first `i` elements are in order, and so are the first `i + 1` when the gap at `j` is left
   out; `t` belongs at or below the gap.
   */
  ghost predicate Gap(a: seq<Edge>, i: int, j: int, t: Edge)
    requires 0 <= j <= i < |a|
  {
    && (forall x, y {:trigger InOrder(a, x, y)} :: 0 <= x < y <= i && x != j && y != j ==> InOrder(a, x, y))
    && (forall y {:trigger Above(a, y, t)} :: j < y <= i ==> Above(a, y, t))
  }

  predicate InOrder(s: seq<Edge>, x: int, y: int)
    requires 0 <= x < |s| && 0 <= y < |s|
  {
    !Less(s[y], s[x])
  }

  predicate Above(s: seq<Edge>, y: int, t: Edge)
    requires 0 <= y < |s|
  {
    Less(t, s[y])
  }

  /** With `t` in the gap at `j`, the elements are those of `whole`. */
  ghost predicate Filled(s: seq<Edge>, j: int, t: Edge, whole: seq<Edge>)
    requires 0 <= j < |s|
  {
    multiset(s[j := t]) == multiset(whole)
  }

  lemma FilledStart(s: seq<Edge>, i: int)
    requires 0 <= i < |s|
    ensures Filled(s, i, s[i], s)
  {
    assert s[i := s[i]] == s;
  }

  /** Moving the gap down is an exchange of `t` with the element before it. */
  lemma GapDown(s: seq<Edge>, j: int, t: Edge, whole: seq<Edge>)
    requires 0 < j < |s| && Filled(s, j, t, whole)
    ensures Filled(s[j := s[j - 1]], j - 1, t, whole)
  {
    SwapPermutes(s[j := t], j, j - 1);
    assert Swapped(s[j := t], j, j - 1) == s[j := s[j - 1]][j - 1 := t];
  }

  method InsertionSort(a: array<Edge>, n: int)
    requires 0 <= n <= a.Length
    modifies a
    ensures Sorted(a[..n]) && multiset(a[..]) == multiset(old(a[..]))
    ensures forall k :: n <= k < a.Length ==> a[k] == old(a[k])
  {
    var i := 1;
    while i < n
      invariant 1 <= i && (n >= 1 ==> i <= n)
      invariant Sorted(a[..if i <= n then i else n]) && multiset(a[..]) == multiset(old(a[..]))
      invariant forall k :: n <= k < a.Length ==> a[k] == old(a[k])
    {
      InsertOne(a, i);
      i := i + 1;
    }
  }

  /** One round: element `i` goes to its place among those before it. */
  method InsertOne(a: array<Edge>, i: int)
    requires 0 < i < a.Length && Sorted(a[..i])
    modifies a
    ensures Sorted(a[..i + 1]) && multiset(a[..]) == multiset(old(a[..]))
    ensures forall k :: i < k < a.Length ==> a[k] == old(a[k])
  {
    var t := a[i];
    var j := MakeGap(a, i, t);
    ghost var s := a[..];
    GapEnd(s, i, j, t);
    if i != j {
      a[j] := t;
    }
    assert a[..] == s[j := t];
  }

  /** The inner loop: larger elements move up until `t` belongs at or above the gap. */
  method MakeGap(a: array<Edge>, i: int, t: Edge) returns (j: int)
    requires 0 < i < a.Length && Sorted(a[..i]) && t == a[i]
    modifies a
    ensures 0 <= j <= i && (j == 0 || !Less(t, a[j - 1])) && (j == i ==> a[i] == t)
    ensures Gapped(a[..], i, j, t, old(a[..]))
  {
    j := i;
    ghost var whole := a[..];
    GapStart(whole, i);
    FilledStart(whole, i);
    while j > 0 && Less(t, a[j - 1])
      invariant 0 <= j <= i && Gapped(a[..], i, j, t, whole)
      invariant j == i ==> a[i] == t
    {
      ghost var s := a[..];
      GapMoves(s, i, j, t, whole);
      a[j] := a[j - 1];
      assert a[..] == s[j := s[j - 1]];
      j := j - 1;
    }
  }

  /** With `t` to go into the gap at `j`, a rearrangement of the first `i + 1` elements of `whole`. */
  ghost predicate Gapped(s: seq<Edge>, i: int, j: int, t: Edge, whole: seq<Edge>)
    requires 0 <= j <= i < |s|
  {
    Gap(s, i, j, t) && Filled(s, j, t, whole) && |whole| == |s| && forall k :: i < k < |s| ==> s[k] == whole[k]
  }

  lemma GapMoves(s: seq<Edge>, i: int, j: int, t: Edge, whole: seq<Edge>)
    requires 0 < j <= i < |s| && Gapped(s, i, j, t, whole) && Less(t, s[j - 1])
    ensures Gapped(s[j := s[j - 1]], i, j - 1, t, whole)
  {
    GapDown(s, j, t, whole);
    GapStep(s, i, j, t);
  }

  lemma GapStart(s: seq<Edge>, i: int)
    requires 0 <= i < |s| && Sorted(s[..i])
    ensures Gap(s, i, i, s[i])
  {
    assert forall x :: 0 <= x < i ==> s[x] == s[..i][x];
    forall x, y | 0 <= x < y <= i && x != i && y != i ensures InOrder(s, x, y) { assert !Less(s[..i][y], s[..i][x]); }
  }

  lemma GapStep(s: seq<Edge>, i: int, j: int, t: Edge)
    requires 0 < j <= i < |s| && Gap(s, i, j, t) && Less(t, s[j - 1])
    ensures Gap(s[j := s[j - 1]], i, j - 1, t)
  {
    var r := s[j := s[j - 1]];
    forall x, y | 0 <= x < y <= i && x != j - 1 && y != j - 1 ensures InOrder(r, x, y) {
      assert InOrder(s, if x == j then j - 1 else x, if y == j then j - 1 else y);
    }
    forall y | j - 1 < y <= i ensures Above(r, y, t) { if y != j { assert Above(s, y, t); } }
  }

  lemma GapEnd(s: seq<Edge>, i: int, j: int, t: Edge)
    requires 0 <= j <= i < |s| && Gap(s, i, j, t) && (j == 0 || !Less(t, s[j - 1]))
    ensures Sorted(s[j := t][..i + 1])
  {
    var r := s[j := t];
    forall x, y | 0 <= x < y < i + 1 ensures !Less(r[y], r[x]) {
      if x == j {
        assert Above(s, y, t);
      } else if y == j {
        if x < j - 1 { assert InOrder(s, x, j - 1); }
      } else {
        assert InOrder(s, x, y);
      }
    }
    assert forall x :: 0 <= x < i + 1 ==> r[..i + 1][x] == r[x];
  }

  // ----- Quicksort -----

  /** Nothing outside [lo, lo + n) changed, and nothing got lost. */
  twostate predicate Within(a: array<Edge>, lo: int, n: int)
    reads a
  {
    && multiset(a[..]) == multiset(old(a[..]))
    && (forall k :: 0 <= k < a.Length && (k < lo || lo + n <= k) ==> a[k] == old(a[k]))
  }

  /** The median of three comes first; one of the other two is not below it and will stop the upward scan. */
  method MedianFirst(a: array<Edge>, lo: int, n: int)
    requires 12 < n && 0 <= lo && lo + n <= a.Length
    modifies a
    ensures Within(a, lo, n)
    ensures !Less(a[lo + n / 2], a[lo]) || !Less(a[lo + n - 1], a[lo])
    ensures !Less(a[lo], a[lo + n / 2]) || !Less(a[lo], a[lo + n - 1])
  {
    var m := n / 2;
    var c01 := Less(a[lo], a[lo + m]);
    var c12 := Less(a[lo + m], a[lo + n - 1]);
    ghost var x, y, last := a[lo], a[lo + m], a[lo + n - 1];
    if c01 != c12 {
      var c := Less(a[lo], a[lo + n - 1]);
      var z := if c == c12 then 0 else n - 1;
      Swap(a, lo + z, lo + m);
      assert z == 0 ==> a[lo] == y && a[lo + m] == x && a[lo + n - 1] == last;
      assert z != 0 ==> a[lo] == x && a[lo + m] == last && a[lo + n - 1] == y;
    }
    Swap(a, lo, lo + m);
  }

  /** Around the pivot at the front: the elements before `i` are not above it, those after `j` not below. */
  ghost predicate Parted(s: seq<Edge>, lo: int, n: int, i: int, j: int)
    requires 0 <= lo && 0 < n && lo + n <= |s|
  {
    && 1 <= i <= j + 1 && j < n
    && (forall k :: lo + 1 <= k < lo + i ==> !Less(s[lo], s[k]))
    && (forall k :: lo + j < k < lo + n ==> !Less(s[k], s[lo]))
  }

  /** The upward scan, which stops at the sentinel `stop` at the latest. */
  method ScanUp(a: array<Edge>, lo: int, n: int, from: int, ghost stop: int) returns (i: int)
    requires 0 <= lo && 0 < n && lo + n <= a.Length && 1 <= from <= stop < n && !Less(a[lo + stop], a[lo])
    ensures from <= i <= stop && !Less(a[lo + i], a[lo])
    ensures forall k :: lo + from <= k < lo + i ==> Less(a[k], a[lo])
  {
    i := from;
    while Less(a[lo + i], a[lo])
      invariant from <= i <= stop
      invariant forall k :: lo + from <= k < lo + i ==> Less(a[k], a[lo])
      decreases stop - i
    {
      i := i + 1;
    }
  }

  /** The downward scan, which stops at the pivot or at `stop` at the latest. */
  method ScanDown(a: array<Edge>, lo: int, n: int, from: int, ghost stop: int) returns (j: int)
    requires 0 <= lo && 0 < n && lo + n <= a.Length && 0 <= stop <= from < n && !Less(a[lo], a[lo + stop])
    ensures stop <= j <= from && !Less(a[lo], a[lo + j])
    ensures forall k :: lo + j < k <= lo + from ==> Less(a[lo], a[k])
  {
    j := from;
    while Less(a[lo], a[lo + j])
      invariant stop <= j <= from
      invariant forall k :: lo + j < k <= lo + from ==> Less(a[lo], a[k])
      decreases j
    {
      j := j - 1;
    }
  }

  /** No other element of the range has the key of the pivot at its front. */
  ghost predicate PivotApart(s: seq<Edge>, lo: int, n: int)
    requires 0 <= lo && 0 < n && lo + n <= |s|
  {
    forall k :: lo < k < lo + n ==> s[k].y0 != s[lo].y0
  }

  /**
   The partition loop.  It ends with `i` equal to `j` or one more, inside the range.  If the pivot's
   key is its own, it is one more, and element `j` is left to neither of the calls on [0, j) and [i, n).
   */
  method Partition(a: array<Edge>, lo: int, n: int) returns (i: int, j: int)
    requires 12 < n && 0 <= lo && lo + n <= a.Length
    requires !Less(a[lo + n / 2], a[lo]) || !Less(a[lo + n - 1], a[lo])
    modifies a
    ensures Within(a, lo, n)
    ensures 1 <= i < n && 0 <= j < n && j <= i <= j + 1
    ensures forall k :: lo <= k < lo + i ==> !Less(a[lo], a[k])
    ensures forall k :: lo + j < k < lo + n ==> !Less(a[k], a[lo])
    ensures old(PivotApart(a[..], lo, n)) ==> i == j + 1
  {
    ghost var apart := PivotApart(a[..], lo, n);
    i, j := 1, n - 1;
    ghost var stop := if !Less(a[lo + n - 1], a[lo]) then n - 1 else n / 2;
    while true
      invariant Parting(a[..], lo, n, i, j, stop) && Within(a, lo, n)
      invariant apart ==> PivotApart(a[..], lo, n)
      decreases j
    {
      i, j := ScanBoth(a, lo, n, i, j, stop);
      if i >= j { break; }
      Exchange(a, lo, n, i, j);
      stop := j;
      i := i + 1;
      j := j - 1;
    }
  }

  /** What the partition loop keeps; `stop` holds an element that ends the upward scan. */
  ghost predicate Parting(s: seq<Edge>, lo: int, n: int, i: int, j: int, stop: int)
    requires 0 <= lo && 0 < n && lo + n <= |s|
  {
    Parted(s, lo, n, i, j) && i <= stop < n && !Less(s[lo + stop], s[lo]) && stop <= j + 1
  }

  /** Both scans of one round. */
  method ScanBoth(a: array<Edge>, lo: int, n: int, i0: int, j0: int, ghost stop: int) returns (i: int, j: int)
    requires 0 <= lo && 0 < n && lo + n <= a.Length && Parting(a[..], lo, n, i0, j0, stop)
    ensures i0 <= i < n && i0 - 1 <= j <= j0 && Parted(a[..], lo, n, i, j)
    ensures !Less(a[lo + i], a[lo]) && !Less(a[lo], a[lo + j])
  {
    i := ScanUp(a, lo, n, i0, stop);
    j := ScanDown(a, lo, n, j0, i0 - 1);
    Scanned(a[..], lo, n, i0, j0, i, j);
  }

  /** The exchange of one round. */
  method Exchange(a: array<Edge>, lo: int, n: int, i: int, j: int)
    requires 0 <= lo && 0 < n && lo + n <= a.Length && Parted(a[..], lo, n, i, j) && i < j
    requires !Less(a[lo + i], a[lo]) && !Less(a[lo], a[lo + j])
    modifies a
    ensures Within(a, lo, n) && Parting(a[..], lo, n, i + 1, j - 1, j)
    ensures old(PivotApart(a[..], lo, n)) ==> PivotApart(a[..], lo, n)
  {
    ghost var was := a[..];
    Swap(a, lo + i, lo + j);
    Exchanged(was, a[..], lo, n, i, j);
  }

  /** After both scans the two sides have met or an exchange is due. */
  lemma Scanned(s: seq<Edge>, lo: int, n: int, i0: int, j0: int, i: int, j: int)
    requires 0 <= lo && 0 < n && lo + n <= |s| && Parted(s, lo, n, i0, j0)
    requires i0 <= i < n && i <= j0 + 1 && i0 - 1 <= j <= j0
    requires forall k :: lo + i0 <= k < lo + i ==> Less(s[k], s[lo])
    requires forall k :: lo + j < k <= lo + j0 ==> Less(s[lo], s[k])
    ensures Parted(s, lo, n, i, j)
  {
    var k := lo + j + 1;
    if k < lo + n { var between := s[k]; }
  }

  lemma Exchanged(s: seq<Edge>, r: seq<Edge>, lo: int, n: int, i: int, j: int)
    requires 0 <= lo && 0 < n && lo + n <= |s| == |r| && Parted(s, lo, n, i, j) && i < j
    requires !Less(s[lo + i], s[lo]) && !Less(s[lo], s[lo + j])
    requires r[lo + i] == s[lo + j] && r[lo + j] == s[lo + i]
    requires forall k :: 0 <= k < |s| && k != lo + i && k != lo + j ==> r[k] == s[k]
    ensures Parted(r, lo, n, i + 1, j - 1) && (PivotApart(s, lo, n) ==> PivotApart(r, lo, n))
  {}

  // ----- The whole sort -----

  function Log2(n: nat): nat { if n < 2 then 0 else 1 + Log2(n / 2) }

  lemma {:induction false} Log2Monotone(m: nat, n: nat)
    requires m <= n
    ensures Log2(m) <= Log2(n)
  {
    if m >= 2 { Log2Monotone(m / 2, n / 2); }
  }

  /**
   The quicksort of n elements from `lo` on: it stays inside its range, permutes it,
   and calls itself no deeper than the logarithm of its size.
   */
  method Quicksort(a: array<Edge>, lo0: int, n0: nat) returns (ghost depth: nat)
    requires 0 <= lo0 && lo0 + n0 <= a.Length
    modifies a
    ensures Within(a, lo0, n0) && depth <= Log2(n0)
    decreases n0
  {
    var lo, n := lo0, n0;
    depth := 0;
    while n > 12
      invariant lo0 <= lo && 0 <= n && lo + n <= lo0 + n0
      invariant Within(a, lo0, n0) && depth <= Log2(n0)
      decreases n
    {
      MedianFirst(a, lo, n);
      var i, j := Partition(a, lo, n);
      ghost var d: nat;
      if j < n - i {
        Log2Monotone(j, n / 2);
        d := Quicksort(a, lo, j);
        Log2Monotone(n, n0);
        lo := lo + i;
        n := n - i;
      } else {
        Log2Monotone(n - i, n / 2);
        d := Quicksort(a, lo + i, n - i);
        Log2Monotone(n, n0);
        n := j;
      }
      if d + 1 > depth { depth := d + 1; }
    }
  }

  /** stbtt__sort_edges: a sorted permutation of the first n edges, and nothing else touched. */
  method SortEdges(a: array<Edge>, n: nat)
    requires n <= a.Length
    modifies a
    ensures forall i, j :: 0 <= i < j < n ==> a[i].y0 <= a[j].y0
    ensures multiset(a[..]) == multiset(old(a[..]))
    ensures forall k :: n <= k < a.Length ==> a[k] == old(a[k])
  {
    ghost var _ := Quicksort(a, 0, n);
    InsertionSort(a, n);
    ByTop(a[..], n);
  }

  /** The order is by the upper end of the edges. */
  lemma ByTop(s: seq<Edge>, n: nat)
    requires n <= |s| && Sorted(s[..n])
    ensures forall i, j :: 0 <= i < j < n ==> s[i].y0 <= s[j].y0
  {
    forall i, j | 0 <= i < j < n ensures s[i].y0 <= s[j].y0 { assert !Less(s[..n][j], s[..n][i]); }
  }
}
