/**
 Paths of the FAT32 driver: the 8.3 names a path text stands for, its parent and last
 name, and what looking it up step by step finds.
 */
module FatPaths {
  import opened FatTable
  import opened FatDir
  import opened FatVolume
  import opened PathText

  // ----- Paths -----

  function DosNames(tokens: seq<Bytes>): (r: Names)
    ensures |r| == |tokens| && forall i :: 0 <= i < |r| ==> r[i] == DosName(tokens[i])
  {
    seq(|tokens|, i requires 0 <= i < |tokens| => DosName(tokens[i]))
  }

  /** The 8.3 names a path text stands for. */
  function PathNames(path: Text): Names {
    DosNames(Components(path, 0))
  }

  /** A C string: no character is NUL. */
  ghost predicate CString(s: Text) {
    forall i :: 0 <= i < |s| ==> 0 < s[i] < 256
  }

  /** The position of the last slash, or -1. */
  function LastSlash(s: Text, i: int): (r: int)
    requires 0 <= i <= |s|
    ensures -1 <= r < i && (r >= 0 ==> s[r] == SLASH) && forall k :: r < k < i ==> s[k] != SLASH
  {
    if i == 0 then -1 else if s[i - 1] == SLASH then i - 1 else LastSlash(s, i - 1)
  }

  function ParentNames(path: Text): Names
    requires LastSlash(path, |path|) >= 0
  {
    PathNames(path[..LastSlash(path, |path|)])
  }

  function LastToken(path: Text): Text
    requires LastSlash(path, |path|) >= 0
  {
    path[LastSlash(path, |path|) + 1..]
  }

  lemma PathJoin(a: Text, b: Text)
    requires SLASH !in b
    ensures PathNames(a + [SLASH] + b) == PathNames(a) + if b == [] then [] else [DosName(b)]
  {
    ComponentsJoin(a, b);
    ComponentsPlain(b);
    if b == [] {
      assert Components(a, 0) + [] == Components(a, 0);
    } else {
      DosNamesConcat(Components(a, 0), [b]);
    }
  }

  /** A path is its parent followed by its last token, unless it ends in a slash. */
  lemma PathSplits(path: Text)
    requires LastSlash(path, |path|) >= 0
    ensures PathNames(path) == ParentNames(path) + if LastToken(path) == [] then [] else [DosName(LastToken(path))]
  {
    var k := LastSlash(path, |path|);
    CutAt(path, k);
    PathJoin(path[..k], path[k + 1..]);
  }

  lemma CutAt(s: Text, k: int)
    requires 0 <= k < |s| && s[k] == SLASH
    ensures s == s[..k] + [SLASH] + s[k + 1..]
  {}

  lemma TokenStep(path: Text, i: int)
    requires 0 <= i < |path| && path[i] != SLASH
    ensures var end := TokenEnd(path, i);
      DosNames(Components(path, i)) == [DosName(path[i..end])] + DosNames(Components(path, end))
  {
    var end := TokenEnd(path, i);
    DosNamesConcat([path[i..end]], Components(path, end));
    assert DosNames([path[i..end]]) == [DosName(path[i..end])];
  }

  lemma DosNamesConcat(a: seq<Bytes>, b: seq<Bytes>)
    ensures DosNames(a + b) == DosNames(a) + DosNames(b)
  {}

  ghost predicate Splits(all: Names, done: Names, rest: Names) {
    all == done + rest
  }

  lemma SplitsShift(all: Names, done: Names, n: Bytes, rest: Names)
    requires Splits(all, done, [n] + rest)
    ensures Splits(all, done + [n], rest)
  {}

  lemma SplitsDone(all: Names, done: Names, rest: Names)
    requires Splits(all, done, rest) && |rest| == 0
    ensures all == done
  {}

  lemma ResolveSnoc(v: Vol, p: Names, n: Bytes)
    requires |v.data| == |v.fat|
    ensures Resolve(v, p + [n]) ==
      match Resolve(v, p)
      case None => None
      case Some(node) => match Entry(v, node.cluster, n) case None => None case Some(e) => Some(ToNode(v, e))
  {
    var r := p + [n];
    assert r[..|r| - 1] == p && r[|r| - 1] == n;
  }

  lemma {:induction false} ResolveStuck(v: Vol, p: Names, q: Names)
    requires |v.data| == |v.fat| && Resolve(v, p) == None
    ensures Resolve(v, p + q) == None
  {
    if q == [] {
      assert p + q == p;
    } else {
      var q0 := q[..|q| - 1];
      ResolveStuck(v, p, q0);
      assert p + q == (p + q0) + [q[|q| - 1]];
      ResolveSnoc(v, p + q0, q[|q| - 1]);
    }
  }

  /**
   Lookup does not ask whether what it searches is a directory: a path through a regular
   file goes on with the slots its bytes happen to spell.  This is why the operations
   below are claimed for parents reached through directories.
   */
  lemma FilesAreSearched(v: Vol, p: Names)
    requires Geometry(v) && Resolve(v, p).Some? && !Resolve(v, p).value.isDir
    requires var c := Resolve(v, p).value.cluster;
      2 <= c < |v.fat| && Matches(SlotAt(v.data[c], 0), Name(SlotAt(v.data[c], 0))) && IsDirEntry(SlotAt(v.data[c], 0))
    ensures var e := SlotAt(v.data[Resolve(v, p).value.cluster], 0);
      Resolve(v, p + [Name(e)]) == Some(ToNode(v, e)) && ToNode(v, e).isDir && !DirPath(v, p + [Name(e)])
  {
    var c := Resolve(v, p).value.cluster;
    var e := SlotAt(v.data[c], 0);
    var r := p + [Name(e)];
    assert r[..|r| - 1] == p;
    WalkStep(v.data, v.fat, c, v.g.dirLimit);
    assert DirAt(v, c)[0] == e;
    ResolveSnoc(v, p, Name(e));
  }

  lemma LookupConcat(a: seq<Bytes>, b: seq<Bytes>, name: Bytes)
    requires (forall k :: 0 <= k < |a| ==> |a[k]| == 32) && forall k :: 0 <= k < |b| ==> |b[k]| == 32
    ensures Lookup(a + b, name) ==
      match ScanFor(a, name, 0) case Found(k) => Some(a[k]) case End => None case More => Lookup(b, name)
  {
    ScanConcat(a, b, name, 0);
  }

  function WalkRest(fat: seq<int>, c: int, limit: int): (w: seq<int>)
    requires 0 <= c < |fat|
    ensures forall i :: 0 <= i < |w| ==> 0 <= w[i] < |fat|
  {
    if Val(fat[c]) == c || Val(fat[c]) < 2 then [] else Walk(fat, Val(fat[c]), limit - 1)
  }

  /** One step of a walk. */
  lemma WalkStep(data: seq<Bytes>, fat: seq<int>, c: int, limit: int)
    requires |data| == |fat| && 2 <= c < |fat| && limit > 0
    ensures DirSlots(data, Walk(fat, c, limit)) == Slots(data[c]) + DirSlots(data, WalkRest(fat, c, limit))
    ensures Contents(data, Walk(fat, c, limit)) == data[c] + Contents(data, WalkRest(fat, c, limit))
  {
    var w := Walk(fat, c, limit);
    assert w[0] == c && w[1..] == WalkRest(fat, c, limit);
  }

  /** What a lookup finds from cluster `c` on. */
  function LookFrom(v: Vol, c: int, limit: int, name: Bytes): Option<Bytes>
    requires |v.data| == |v.fat|
  {
    Lookup(DirSlots(v.data, Walk(v.fat, c, limit)), name)
  }

  /** One cluster of a lookup. */
  lemma LookStep(v: Vol, c: int, limit: int, name: Bytes)
    requires Geometry(v) && 2 <= c < |v.fat| && limit > 0 && |name| == 11
    ensures LookFrom(v, c, limit, name) ==
      match ScanFor(Slots(v.data[c]), name, 0)
      case Found(k) => Some(Slots(v.data[c])[k])
      case End => None
      case More =>
        var next := Val(v.fat[c]);
        if next == c || next < 2 then None else LookFrom(v, next, limit - 1, name)
  {
    WalkStep(v.data, v.fat, c, limit);
    LookupConcat(Slots(v.data[c]), DirSlots(v.data, WalkRest(v.fat, c, limit)), name);
  }

  lemma LookEnd(v: Vol, c: int, limit: int, name: Bytes)
    requires Geometry(v) && |name| == 11 && (c < 2 || c >= |v.fat| || limit <= 0)
    ensures LookFrom(v, c, limit, name) == None
  {
    assert Walk(v.fat, c, limit) == [];
  }

  /** What fat32_read_file delivers for a path. */
  function ReadResult(v: Vol, path: Text): Option<Bytes>
    requires |v.data| == |v.fat|
  {
    match Resolve(v, PathNames(path))
    case None => None
    case Some(n) => if n.isDir then None else Some(ReadNode(v, n))
  }

  lemma {:induction false} TokensFrom(s: Text, i: int, t: Text, j: int)
    requires CString(s) && 0 <= i <= |s| && 0 <= j < |Components(s, i)| && t == Components(s, i)[j]
    ensures CString(t)
    decreases |s| - i
  {
    if s[i] == SLASH {
      TokensFrom(s, i + 1, t, j);
    } else if j > 0 {
      TokensFrom(s, TokenEnd(s, i), t, j - 1);
    }
  }

  lemma PathProper(path: Text)
    requires CString(path)
    ensures Proper(PathNames(path))
  {
    var c := Components(path, 0);
    forall i | 0 <= i < |c| ensures DosName(c[i])[0] != DOT {
      TokensFrom(path, 0, c[i], i);
      DosNameStart(c[i]);
    }
  }

  // ----- The parent and the name of a path -----

  function NameOf(path: Text): (n: Bytes)
    requires LastSlash(path, |path|) >= 0
    ensures |n| == 11
  {
    DosName(LastToken(path))
  }

  /** The path has a slash and what is before the last one resolves to a directory. */
  ghost predicate InDir(v: Vol, path: Text)
    requires |v.data| == |v.fat|
  {
    && LastSlash(path, |path|) >= 0
    && Resolve(v, ParentNames(path)).Some? && Resolve(v, ParentNames(path)).value.isDir
  }

  ghost function DirOf(v: Vol, path: Text): int
    requires |v.data| == |v.fat| && InDir(v, path)
  {
    Resolve(v, ParentNames(path)).value.cluster
  }

  /** Everything that looking up `p` searches on its way is in the table. */
  ghost predicate SearchedIn(v: Vol, p: Names)
    requires |v.data| == |v.fat|
  {
    p == [] ||
    (var q := p[..|p| - 1];
     SearchedIn(v, q) && (Resolve(v, q).Some? ==> InTable(v, Resolve(v, q).value.cluster)))
  }

  /** A parent that resolves to a directory does so through directories, not through the bytes of a file. */
  ghost predicate ThroughDirs(v: Vol, path: Text)
    requires |v.data| == |v.fat|
  {
    InDir(v, path) ==> DirPath(v, ParentNames(path))
  }

  lemma PathParts(path: Text)
    requires CString(path) && LastSlash(path, |path|) >= 0
    ensures Proper(ParentNames(path)) && NameOf(path)[0] != DOT && NameOf(path)[0] != END_MARK
  {
    PathProper(path[..LastSlash(path, |path|)]);
    DosNameStart(LastToken(path));
  }
}
