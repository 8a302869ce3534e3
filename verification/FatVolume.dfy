/**
 A mounted FAT32 volume as a value: what a path resolves to and what a file reads
 as, straight from the table and the clusters; when a volume is well formed; and
 how a change of one directory slot is seen from every other path.
 */
module FatVolume {
  import opened FatTable
  import opened FatDir

  /** Sectors per cluster, the root cluster, and the `safety_limit` of directory and file loops. */
  datatype Geo = Geo(spc: int, root: int, dirLimit: int, fileLimit: int)

  datatype Vol = Vol(g: Geo, fat: seq<int>, data: seq<Bytes>)

  function ClusterBytes(v: Vol): int {
    512 * v.g.spc
  }

  ghost predicate Geometry(v: Vol) {
    && v.g.spc > 0 && v.g.dirLimit > 0 && v.g.fileLimit > 0 && |v.data| == |v.fat| && InRange(v.fat)
    && Sized(v.data, ClusterBytes(v))
  }

  /** The table reaches as far as cluster `c`, or `c` is an end mark. */
  predicate InTable(v: Vol, c: int) { c < |v.fat| || c >= EOC_MIN }

  // ----- Resolution and reading -----

  datatype Node = Node(cluster: int, isDir: bool, size: int)

  type Names = seq<Bytes>

  function DirAt(v: Vol, c: int): (S: seq<Bytes>)
    requires |v.data| == |v.fat|
    ensures forall k :: 0 <= k < |S| ==> |S[k]| == 32
  {
    DirSlots(v.data, Walk(v.fat, c, v.g.dirLimit))
  }

  /** The entry a name finds in the directory at `c`. */
  function Entry(v: Vol, c: int, name: Bytes): (r: Option<Bytes>)
    requires |v.data| == |v.fat|
    ensures r.Some? ==> |r.value| == 32 && Matches(r.value, name)
  {
    Lookup(DirAt(v, c), name)
  }

  function ToNode(v: Vol, e: Bytes): Node
    requires |e| == 32
  {
    Node(if First(e) == 0 then v.g.root else First(e), IsDirEntry(e), Size(e))
  }

  /** What a path of 8.3 names resolves to; like the driver, it does not ask for directories on the way. */
  function Resolve(v: Vol, p: Names): Option<Node>
    requires |v.data| == |v.fat|
  {
    if p == [] then Some(Node(v.g.root, true, 0))
    else
      match Resolve(v, p[..|p| - 1])
      case None => None
      case Some(n) =>
        match Entry(v, n.cluster, p[|p| - 1])
        case None => None
        case Some(e) => Some(ToNode(v, e))
  }

  /** The bytes fat32_read_file copies out for a file entry. */
  function ReadNode(v: Vol, n: Node): Bytes
    requires |v.data| == |v.fat|
  {
    Take(FileAt(v, n.cluster), n.size)
  }

  function FileAt(v: Vol, c: int): Bytes
    requires |v.data| == |v.fat|
  {
    Contents(v.data, Walk(v.fat, c, v.g.fileLimit))
  }

  function Take(b: Bytes, n: int): Bytes {
    if n <= 0 then [] else if n <= |b| then b[..n] else b
  }

  /** Every prefix of `p`, `p` included, resolves to a directory. */
  ghost predicate DirPath(v: Vol, p: Names)
    requires |v.data| == |v.fat|
  {
    p == [] || (DirPath(v, p[..|p| - 1]) && Resolve(v, p).Some? && Resolve(v, p).value.isDir)
  }

  ghost predicate Proper(p: Names) {
    forall i :: 0 <= i < |p| ==> |p[i]| == 11 && p[i][0] != DOT
  }

  // ----- Well-formed volumes -----

  datatype Obj = Obj(isDir: bool, chain: seq<int>)

  /**
   The files and directories of a volume by first cluster.  `place` gives each of
   their clusters its object and position, so chains are repetition-free and disjoint;
   `parent` gives each object the one slot that refers to it.
   */
  datatype Shape = Shape(objs: map<int, Obj>, place: map<int, (int, int)>, parent: map<int, (int, int)>)

  ghost predicate ChainOK(v: Vol, sh: Shape, f: int)
    requires f in sh.objs
  {
    var ch := sh.objs[f].chain;
    && IsChain(v.fat, ch) && ch[0] == f
    && forall i :: 0 <= i < |ch| ==> ch[i] in sh.place && sh.place[ch[i]] == (f, i)
  }

  ghost predicate RefOK(v: Vol, sh: Shape, e: Bytes)
    requires |e| == 32
  {
    if IsLabel(e) then First(e) == 0
    else if IsDirEntry(e) then First(e) in sh.objs && sh.objs[First(e)].isDir && First(e) != v.g.root && First(e) != 0
    else
      || (First(e) == 0 && Size(e) == 0)
      || (First(e) in sh.objs && !sh.objs[First(e)].isDir && First(e) != 0
        && 0 <= Size(e) <= |sh.objs[First(e)].chain| * ClusterBytes(v))
  }

  ghost predicate IsRef(e: Bytes)
    requires |e| == 32
  {
    Live(e) && e[0] != DOT
  }

  ghost predicate SlotOK(v: Vol, sh: Shape, d: int, k: int, e: Bytes)
    requires |e| == 32
  {
    IsRef(e) ==> RefOK(v, sh, e) && (First(e) != 0 ==> First(e) in sh.parent && sh.parent[First(e)] == (d, k))
  }

  ghost predicate DirGood(v: Vol, sh: Shape, d: int)
    requires |v.data| == |v.fat|
  {
    var S := DirAt(v, d);
    DirOK(S) && forall k {:trigger SlotOK(v, sh, d, k, S[k])} :: 0 <= k < |S| ==> SlotOK(v, sh, d, k, S[k])
  }

  ghost predicate WF(v: Vol, sh: Shape) {
    && Geometry(v)
    && v.g.root in sh.objs && sh.objs[v.g.root].isDir
    && (forall f {:trigger ChainOK(v, sh, f)} :: f in sh.objs ==> ChainOK(v, sh, f))
    && (forall d {:trigger DirGood(v, sh, d)} :: d in sh.objs && sh.objs[d].isDir ==> DirGood(v, sh, d))
  }

  /** Chains of different objects share no cluster and no chain repeats one. */
  lemma ChainsDisjoint(v: Vol, sh: Shape, f: int, i: int, g: int, j: int)
    requires WF(v, sh) && f in sh.objs && g in sh.objs
    requires 0 <= i < |sh.objs[f].chain| && 0 <= j < |sh.objs[g].chain|
    requires sh.objs[f].chain[i] == sh.objs[g].chain[j]
    ensures f == g && i == j
  {
    assert ChainOK(v, sh, f) && ChainOK(v, sh, g);
  }

  lemma WalkOf(v: Vol, sh: Shape, f: int, limit: int)
    requires WF(v, sh) && f in sh.objs && limit >= 0
    ensures Walk(v.fat, f, limit) == Visible(sh.objs[f].chain, limit)
  {
    assert ChainOK(v, sh, f);
    var ch := sh.objs[f].chain;
    forall i, j | 0 <= i < j < |ch| ensures ch[i] != ch[j] {
      if ch[i] == ch[j] { ChainsDisjoint(v, sh, f, i, f, j); }
    }
    WalkIsChain(v.fat, ch, limit);
  }

  /** No object owns a free cluster. */
  lemma FreeNotOwned(v: Vol, sh: Shape, c: int, f: int, i: int)
    requires WF(v, sh) && IsFree(v.fat, c) && f in sh.objs && 0 <= i < |sh.objs[f].chain|
    ensures sh.objs[f].chain[i] != c
  {
    assert ChainOK(v, sh, f);
    ChainUsed(v.fat, sh.objs[f].chain, i);
  }

  // ----- Paths in a well-formed volume -----

  /** A name found in a directory is a slot of it, and that slot is in order. */
  lemma FoundSlot(v: Vol, sh: Shape, d: int, name: Bytes) returns (k: int)
    requires WF(v, sh) && d in sh.objs && sh.objs[d].isDir && |name| == 11 && name[0] != DOT
    requires Entry(v, d, name).Some?
    ensures var e := Entry(v, d, name).value;
      0 <= k < |DirAt(v, d)| && DirAt(v, d)[k] == e && IsRef(e) && !IsLabel(e) && SlotOK(v, sh, d, k, e)
  {
    assert DirGood(v, sh, d);
    var e := Entry(v, d, name).value;
    assert e[0] == Name(e)[0];
    k := ScanFor(DirAt(v, d), name, 0).index;
    assert SlotOK(v, sh, d, k, DirAt(v, d)[k]);
  }

  lemma {:induction false} DirPathInside(v: Vol, sh: Shape, p: Names)
    requires WF(v, sh) && DirPath(v, p) && Proper(p)
    ensures Resolve(v, p).Some? && Resolve(v, p).value.cluster in sh.objs && sh.objs[Resolve(v, p).value.cluster].isDir
  {
    if p != [] {
      var q := p[..|p| - 1];
      DirPathInside(v, sh, q);
      var k := FoundSlot(v, sh, Resolve(v, q).value.cluster, p[|p| - 1]);
    }
  }

  function SlotName(v: Vol, d: int, k: int): Bytes
    requires |v.data| == |v.fat|
  {
    if 0 <= k < |DirAt(v, d)| then Name(DirAt(v, d)[k]) else []
  }

  /** The last step of a resolved path: slot `k` of directory `x`, named like the path, is the parent slot. */
  lemma LastStep(v: Vol, sh: Shape, p: Names) returns (x: int, k: int)
    requires WF(v, sh) && p != [] && DirPath(v, p[..|p| - 1]) && Proper(p) && Resolve(v, p).Some?
    ensures Resolve(v, p[..|p| - 1]).Some? && Resolve(v, p[..|p| - 1]).value.cluster == x && x in sh.objs
    ensures sh.objs[x].isDir
    ensures SlotName(v, x, k) == p[|p| - 1]
    ensures var n := Resolve(v, p).value;
      && (n.cluster != v.g.root ==> n.cluster in sh.parent && sh.parent[n.cluster] == (x, k))
      && (n.isDir ==> n.cluster != v.g.root)
      && (!n.isDir && n.size > 0 ==> n.cluster in sh.objs && !sh.objs[n.cluster].isDir)
  {
    var q := p[..|p| - 1];
    DirPathInside(v, sh, q);
    x := Resolve(v, q).value.cluster;
    k := FoundSlot(v, sh, x, p[|p| - 1]);
  }

  lemma ProperInit(p: Names)
    requires Proper(p) && p != []
    ensures Proper(p[..|p| - 1])
  {}

  lemma SameEnds(p: Names, q: Names)
    requires p != [] && q != [] && p[..|p| - 1] == q[..|q| - 1] && p[|p| - 1] == q[|q| - 1]
    ensures p == q
  {
    assert p == p[..|p| - 1] + [p[|p| - 1]] && q == q[..|q| - 1] + [q[|q| - 1]];
  }

  /** A directory is reached by one path only. */
  lemma {:induction false} UniquePath(v: Vol, sh: Shape, p: Names, q: Names)
    requires WF(v, sh) && DirPath(v, p) && DirPath(v, q) && Proper(p) && Proper(q)
    requires Resolve(v, p).Some? && Resolve(v, q).Some? && Resolve(v, p).value.cluster == Resolve(v, q).value.cluster
    ensures p == q
    decreases |p|
  {
    if p == [] && q != [] {
      var x, k := LastStep(v, sh, q);
    } else if q == [] && p != [] {
      var x, k := LastStep(v, sh, p);
    } else if p != [] {
      var x, k := LastStep(v, sh, p);
      var y, l := LastStep(v, sh, q);
      ProperInit(p);
      ProperInit(q);
      UniquePath(v, sh, p[..|p| - 1], q[..|q| - 1]);
      SameEnds(p, q);
    }
  }

  /** No directory reached from the root refers to itself. */
  lemma NotOwnChild(v: Vol, sh: Shape, p: Names, k: int)
    requires WF(v, sh) && DirPath(v, p) && Proper(p) && Resolve(v, p).Some?
    requires var d := Resolve(v, p).value.cluster; 0 <= k < |DirAt(v, d)| && IsRef(DirAt(v, d)[k])
    ensures var d := Resolve(v, p).value.cluster; First(DirAt(v, d)[k]) != d
  {
    var d := Resolve(v, p).value.cluster;
    DirPathInside(v, sh, p);
    assert DirGood(v, sh, d) && SlotOK(v, sh, d, k, DirAt(v, d)[k]);
    assert ChainOK(v, sh, d);
    if First(DirAt(v, d)[k]) == d && p != [] {
      var x, l := LastStep(v, sh, p);
      UniquePath(v, sh, p, p[..|p| - 1]);
    }
  }

  // ----- What a change leaves alone -----

  /**
   From `v` to `v'` only what `name` finds in directory `d` changes, and the object
   `gone` (if not 0) that it referred to.
   */
  ghost predicate Agrees(v: Vol, sh: Shape, v': Vol, d: int, name: Bytes, gone: int)
    requires |v.data| == |v.fat| && |v'.data| == |v'.fat|
  {
    && v'.g == v.g
    && (forall f, n :: f in sh.objs && sh.objs[f].isDir && f != gone && (f != d || n != name) ==>
          Entry(v', f, n) == Entry(v, f, n))
    && (forall f :: f in sh.objs && !sh.objs[f].isDir && f != gone ==> FileAt(v', f) == FileAt(v, f))
    && (gone != 0 ==> Entry(v, d, name).Some? && First(Entry(v, d, name).value) == gone)
  }

  /** Two names that find the same object are the same name in the same directory. */
  lemma SameReference(v: Vol, sh: Shape, p: Names, q: Names)
    requires WF(v, sh) && p != [] && q != [] && Proper(p) && Proper(q)
    requires DirPath(v, p[..|p| - 1]) && DirPath(v, q[..|q| - 1]) && Resolve(v, p).Some? && Resolve(v, q).Some?
    requires Resolve(v, p).value.cluster == Resolve(v, q).value.cluster != v.g.root
    ensures p == q
  {
    var x, k := LastStep(v, sh, p);
    var y, l := LastStep(v, sh, q);
    ProperInit(p);
    ProperInit(q);
    UniquePath(v, sh, p[..|p| - 1], q[..|q| - 1]);
    SameEnds(p, q);
  }

  /** The changed path, when it leads to the object that goes away. */
  lemma GonePath(v: Vol, sh: Shape, v': Vol, p: Names, name: Bytes, gone: int)
    requires WF(v, sh) && |v'.data| == |v'.fat| && DirPath(v, p) && Proper(p) && Resolve(v, p).Some?
    requires |name| == 11 && name[0] != DOT && Agrees(v, sh, v', Resolve(v, p).value.cluster, name, gone) && gone != 0
    ensures var r := p + [name];
      && r[..|r| - 1] == p && Proper(r) && Resolve(v, r).Some? && Resolve(v, r).value.cluster == gone
      && gone != v.g.root
  {
    var r := p + [name];
    assert r[..|r| - 1] == p && r[|r| - 1] == name;
    DirPathInside(v, sh, p);
    var k := FoundSlot(v, sh, Resolve(v, p).value.cluster, name);
  }

  /** A path that does not lead through the changed name resolves as before. */
  lemma {:induction false} PathsKept(v: Vol, sh: Shape, v': Vol, p: Names, name: Bytes, gone: int, q: Names)
    requires WF(v, sh) && |v'.data| == |v'.fat| && DirPath(v, p) && Proper(p) && Resolve(v, p).Some?
    requires |name| == 11 && name[0] != DOT && Agrees(v, sh, v', Resolve(v, p).value.cluster, name, gone)
    requires Proper(q) && (q == [] || DirPath(v, q[..|q| - 1])) && !(p + [name] <= q)
    ensures Resolve(v', q) == Resolve(v, q)
    ensures q != [] ==> DirPath(v', q[..|q| - 1])
    decreases |q|
  {
    if q != [] {
      var q0 := q[..|q| - 1];
      PathsKept(v, sh, v', p, name, gone, q0);
      DirPathInside(v, sh, q0);
      OffThePath(v, sh, v', p, name, gone, q);
    }
  }

  /** A directory that goes away is on the path. */
  lemma GoneIsOnPath(v: Vol, sh: Shape, v': Vol, p: Names, name: Bytes, gone: int, q: Names)
    requires WF(v, sh) && |v'.data| == |v'.fat| && DirPath(v, p) && Proper(p) && Resolve(v, p).Some?
    requires |name| == 11 && name[0] != DOT && Agrees(v, sh, v', Resolve(v, p).value.cluster, name, gone)
    requires q != [] && Proper(q) && DirPath(v, q[..|q| - 1])
    requires Resolve(v, q[..|q| - 1]).Some? && Resolve(v, q[..|q| - 1]).value.cluster == gone != 0
    ensures p + [name] <= q
  {
    var q0 := q[..|q| - 1];
    ProperInit(q);
    GonePath(v, sh, v', p, name, gone);
    if q0 != [] { SameReference(v, sh, q0, p + [name]); }
  }

  /** A name looked up in the directory of `p` is on the path. */
  lemma EndsHere(v: Vol, sh: Shape, p: Names, name: Bytes, q: Names)
    requires WF(v, sh) && DirPath(v, p) && Proper(p) && Resolve(v, p).Some?
    requires q != [] && Proper(q[..|q| - 1]) && DirPath(v, q[..|q| - 1]) && q[|q| - 1] == name
    requires Resolve(v, q[..|q| - 1]).Some? && Resolve(v, q[..|q| - 1]).value.cluster == Resolve(v, p).value.cluster
    ensures p + [name] <= q
  {
    UniquePath(v, sh, q[..|q| - 1], p);
    assert q == p + [name];
  }

  lemma OffThePath(v: Vol, sh: Shape, v': Vol, p: Names, name: Bytes, gone: int, q: Names)
    requires WF(v, sh) && |v'.data| == |v'.fat| && DirPath(v, p) && Proper(p) && Resolve(v, p).Some?
    requires |name| == 11 && name[0] != DOT && Agrees(v, sh, v', Resolve(v, p).value.cluster, name, gone)
    requires q != [] && Proper(q) && DirPath(v, q[..|q| - 1]) && !(p + [name] <= q)
    requires Resolve(v, q[..|q| - 1]).Some?
    ensures var x := Resolve(v, q[..|q| - 1]).value.cluster; Entry(v', x, q[|q| - 1]) == Entry(v, x, q[|q| - 1])
  {
    var q0 := q[..|q| - 1];
    DirPathInside(v, sh, q0);
    var x := Resolve(v, q0).value.cluster;
    assert ChainOK(v, sh, x);
    ProperInit(q);
    if x == gone {
      GoneIsOnPath(v, sh, v', p, name, gone, q);
    } else if x == Resolve(v, p).value.cluster && q[|q| - 1] == name {
      EndsHere(v, sh, p, name, q);
    }
  }

  /** ... and a file found there reads the same bytes. */
  lemma FilesKept(v: Vol, sh: Shape, v': Vol, p: Names, name: Bytes, gone: int, q: Names)
    requires WF(v, sh) && |v'.data| == |v'.fat| && DirPath(v, p) && Proper(p) && Resolve(v, p).Some?
    requires |name| == 11 && name[0] != DOT && Agrees(v, sh, v', Resolve(v, p).value.cluster, name, gone)
    requires Proper(q) && q != [] && DirPath(v, q[..|q| - 1]) && q != p + [name]
    requires Resolve(v, q).Some? && !Resolve(v, q).value.isDir
    ensures ReadNode(v', Resolve(v, q).value) == ReadNode(v, Resolve(v, q).value)
  {
    var x, k := LastStep(v, sh, q);
    var n := Resolve(v, q).value;
    if n.size > 0 && n.cluster == gone {
      GonePath(v, sh, v', p, name, gone);
      SameReference(v, sh, q, p + [name]);
    }
  }
}
