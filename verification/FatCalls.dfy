/**
 Writing a file and making a directory, step by step, on any volume whose table entries
 are in range; and what these steps mean on a well-formed one.
 */
module FatCalls {
  import opened FatTable
  import opened FatDir
  import opened FatVolume
  import opened FatSteps
  import opened PathText
  import opened FatPaths
  import opened FatLoops
  import opened FatWalk
  import opened FatOutcomes

  // ----- A new entry -----

  /** A cluster with entry `e` in slot `k`; behind what was the last entry the end mark is renewed. */
  function EntryPut(b: Bytes, k: int, e: Bytes): (r: Bytes)
    requires 0 <= k && 32 * k + 32 <= |b| && |e| == 32
    ensures |r| == |b|
  {
    var b1 := PutSlot(b, k, e);
    if b[32 * k] == END_MARK && 32 * (k + 1) < |b| then b1[32 * (k + 1) := END_MARK] else b1
  }

  /** The last loop of fat32_write_file and fat32_mkdir: whether there was room, and the volume it leaves. */
  function Entered(v: Vol, d: int, e: Bytes): (bool, Vol)
    requires |v.data| == |v.fat| && |e| == 32
  {
    match RoomSearch(v, d, v.g.dirLimit)
    case None => (false, v)
    case Some((c, k)) => (true, v.(data := v.data[c := EntryPut(v.data[c], k, e)]))
  }

  /** Byte by byte: the entry in its slot, a zero behind it if the slot was the end, and all else as before. */
  lemma EntryPutIs(b: Bytes, k: int, e: Bytes, i: int)
    requires 0 <= k && 32 * k + 32 <= |b| && |e| == 32 && 0 <= i < |b|
    ensures EntryPut(b, k, e)[i] ==
      if 32 * k <= i < 32 * k + 32 then e[i - 32 * k]
      else if i == 32 * k + 32 && b[32 * k] == 0 then 0
      else b[i]
  {}

  lemma EntryPutBytes(b: Bytes, k: int, e: Bytes)
    requires 0 <= k && 32 * k + 32 <= |b| && |e| == 32 && IsBytes(b) && IsBytes(e)
    ensures IsBytes(EntryPut(b, k, e))
  {
    PutSlotBytes(b, k, e);
    var b1, r := PutSlot(b, k, e), EntryPut(b, k, e);
    forall i | 0 <= i < |b| ensures IsByte(r, i) { assert IsByte(b1, i); }
  }

  lemma EnteredGeometry(v: Vol, d: int, e: Bytes)
    requires Geometry(v) && |e| == 32
    ensures Geometry(Entered(v, d, e).1) && Entered(v, d, e).1.fat == v.fat
  {}

  /** On a well-formed volume the entry goes to the first slot that is not taken, and no other byte changes. */
  lemma EnteredAt(v: Vol, sh: Shape, d: int, e: Bytes) returns (ci: int, k: int, pos: int)
    requires WF(v, sh) && d in sh.objs && sh.objs[d].isDir && |e| == 32
    ensures DirFull(v, d) ==> Entered(v, d, e) == (false, v)
    ensures !DirFull(v, d) ==>
      && AtSlot(v, sh, d, ci, k, pos) && FirstFree(DirAt(v, d), pos)
      && Entered(v, d, e) == (true, v.(data := PutAt(v, Visible(sh.objs[d].chain, v.g.dirLimit)[ci], k, e)))
  {
    k := 0;
    ci, pos := RoomFinds(v, sh, d);
    match RoomSearch(v, d, v.g.dirLimit)
    case None =>
    case Some((c, j)) =>
      k := j;
      assert !Live(DirAt(v, d)[pos]);
      PutOnly(v, sh, d, ci, k, pos, e);
  }

  /** Renewing the end mark changes nothing there. */
  lemma PutOnly(v: Vol, sh: Shape, d: int, ci: int, k: int, pos: int, e: Bytes)
    requires WF(v, sh) && AtSlot(v, sh, d, ci, k, pos) && |e| == 32
    ensures var c := Visible(sh.objs[d].chain, v.g.dirLimit)[ci];
      EntryPut(v.data[c], k, e) == PutSlot(v.data[c], k, e)
  {
    var c := Visible(sh.objs[d].chain, v.g.dirLimit)[ci];
    SlotBounds(v, sh, d, ci, k, pos);
    if v.data[c][32 * k] == END_MARK && 32 * (k + 1) < |v.data[c]| {
      EndMarkThere(v, sh, d, ci, k, pos);
      SameByte(PutSlot(v.data[c], k, e), 32 * (k + 1));
    }
  }

  // ----- Writing -----

  /**
   The allocation loop of fat32_write_file from `v` on.  It succeeds exactly when enough clusters
   are free.  Only the clusters of `ch` change; they were free and are a chain with the bytes now.
   */
  ghost predicate Built(v: Vol, v1: Vol, bytes: Bytes, needed: int, ok: bool, ch: seq<int>) {
    && v1.g == v.g && Grown(v.fat, v.data, v1.fat, v1.data, ch)
    && FreeCount(v1.fat, |v1.fat|) + |ch| == FreeCount(v.fat, |v.fat|)
    && (ok <==> FreeCount(v.fat, |v.fat|) >= needed)
    && (if ok then
          && |ch| == needed > 0 && Within(ch, |v1.data|) && needed * ClusterBytes(v1) >= 0
          && Contents(v1.data, ch) == PadTo(bytes, needed * ClusterBytes(v1))
        else |ch| < needed && forall d :: !IsFree(v1.fat, d))
  }

  /** fat32_write_file from the allocation loop on: `v1` is the volume with the data and without the entry. */
  ghost predicate Storing(v: Vol, v1: Vol, v2: Vol, r: int, d: int, name: Bytes, bytes: Bytes, ch: seq<int>)
    requires Geometry(v) && |name| == 11
  {
    && Geometry(v1) && Built(v, v1, bytes, ClustersNeeded(|bytes|, ClusterBytes(v)), r != -2, ch)
    && if r == -2 then v2 == v1
       else (r == 1, v2) == Entered(v1, d, MakeEntry(name, ATTR_FILE, ch[0], |bytes|)) && (r == 1 || r == -1)
  }

  /** What these steps mean in a directory of a well-formed volume that does not have the name. */
  lemma StoreMeans(v: Vol, sh: Shape, v1: Vol, v2: Vol, r: int, path: Text, bytes: Bytes, ch: seq<int>)
    returns (sh': Shape)
    requires WF(v, sh) && CString(path) && |bytes| < 0x8000_0000 && InDir(v, path) && DirPath(v, ParentNames(path))
    requires NameFresh(DirAt(v, DirOf(v, path)), NameOf(path))
    requires Storing(v, v1, v2, r, DirOf(v, path), NameOf(path), bytes, ch)
    ensures WF(v2, sh') && Written(v, v2, r, path, bytes)
    ensures ReturnCode(r, FreeCount(v.fat, |v.fat|), ClustersNeeded(|bytes|, ClusterBytes(v)),
                       DirFull(v, DirOf(v, path)))
  {
    var p, name, d := ParentNames(path), NameOf(path), DirOf(v, path);
    PathParts(path);
    BuildEnd(v, v1, ch);
    BuildOutcome(v, v1, sh, p, name);
    DirPathInside(v, sh, p);
    sh' := sh;
    if r != -2 {
      var ci, k, pos := EnteredAt(v1, sh, d, MakeEntry(name, ATTR_FILE, ch[0], |bytes|));
      if r == 1 {
        AddOutcome(v, v1, sh, p, ci, k, pos, name, ch, bytes);
        sh' := if name[0] == DELETED then sh else ShapeWith(sh, false, ch, d, pos);
      }
    }
    WrittenNow(v, v2, r, path, bytes);
  }

  /** fat32_write_file on any volume: the old file goes, then the steps above follow. */
  ghost predicate WriteSteps(v: Vol, v1: Vol, v2: Vol, r: int, path: Text, bytes: Bytes, ch: seq<int>)
    requires Geometry(v)
  {
    var v0 := Deletion(v, path).1;
    && Geometry(v0)
    && if InDir(v0, path) then Storing(v0, v1, v2, r, DirOf(v0, path), NameOf(path), bytes, ch)
       else r == -1 && v2 == v0
  }

  /** The clusters that a write goes to are in the table. */
  ghost predicate WriteReaches(v: Vol, path: Text)
    requires Geometry(v)
  {
    Reaches(v, path) && var v0 := Deletion(v, path).1; |v0.data| == |v0.fat| && ParentReached(v0, path)
  }

  /** On a well-formed volume they are, if the parent is reached through directories. */
  lemma DirsReachWrite(v: Vol, sh: Shape, path: Text)
    requires WF(v, sh) && CString(path) && InDir(v, path) && ThroughDirs(v, path)
    ensures WriteReaches(v, path)
  {
    DirsReach(v, sh, path);
    var sh0 := DeletionMeans(v, sh, path);
    PathParts(path);
    DirsSearched(Deletion(v, path).1, sh0, ParentNames(path));
  }

  /**
   When each code is returned, and the free clusters after a write: those before, and those of the
   old file, without the new ones.  A full directory is noticed only after these are taken.
   */
  ghost predicate WriteCount(v: Vol, sh: Shape, v2: Vol, r: int, path: Text, size: nat)
    requires |v.data| == |v.fat| && v.g.spc > 0 && InDir(v, path)
  {
    var d, needed := DirOf(v, path), ClustersNeeded(size, ClusterBytes(v));
    var free := FreeCount(v.fat, |v.fat|) + Held(v, sh, d, NameOf(path));
    && ReturnCode(r, free, needed, DirFull(v, d) && NameFresh(DirAt(v, d), NameOf(path)))
    && FreeCount(v2.fat, |v2.fat|) == if r == -2 then 0 else free - needed
  }

  /** What a write means where the parent is reached through directories. */
  lemma WriteMeans(v: Vol, sh: Shape, v1: Vol, v2: Vol, r: int, path: Text, bytes: Bytes, ch: seq<int>)
    returns (sh': Shape)
    requires WF(v, sh) && CString(path) && |bytes| < 0x8000_0000 && ThroughDirs(v, path)
    requires WriteSteps(v, v1, v2, r, path, bytes, ch)
    ensures WF(v2, sh') && Written(v, v2, r, path, bytes)
    ensures InDir(v, path) ==> WriteCount(v, sh, v2, r, path, |bytes|)
  {
    var v0 := Deletion(v, path).1;
    sh' := DeletionMeans(v, sh, path);
    if InDir(v, path) {
      sh' := WriteAfter(v, sh, v0, sh', v1, v2, r, path, bytes, ch);
    }
  }

  /** The same, from what the deletion has left. */
  lemma WriteAfter(v: Vol, sh: Shape, v0: Vol, sh0: Shape, v1: Vol, v2: Vol, r: int, path: Text, bytes: Bytes,
                   ch: seq<int>)
    returns (sh': Shape)
    requires Geometry(v) && CString(path) && |bytes| < 0x8000_0000 && InDir(v, path)
    requires WF(v0, sh0) && v0.g == v.g && Cleared(v, v0, sh0, path) && Room(v, sh, v0, path)
    requires Storing(v0, v1, v2, r, DirOf(v0, path), NameOf(path), bytes, ch)
    ensures WF(v2, sh') && Written(v, v2, r, path, bytes) && WriteCount(v, sh, v2, r, path, |bytes|)
  {
    sh' := StoreMeans(v0, sh0, v1, v2, r, path, bytes, ch);
    StoreCount(v0, v1, v2, r, DirOf(v0, path), NameOf(path), bytes, ch);
    CountAfter(v, sh, v0, v2, r, path, |bytes|);
    WrittenAfter(v, v0, v2, r, path, bytes);
  }

  lemma CountAfter(v: Vol, sh: Shape, v0: Vol, v2: Vol, r: int, path: Text, size: nat)
    requires |v.data| == |v.fat| && |v0.data| == |v0.fat| && v.g.spc > 0 && v0.g == v.g && InDir(v, path)
    requires Room(v, sh, v0, path)
    requires var free, needed := FreeCount(v0.fat, |v0.fat|), ClustersNeeded(size, ClusterBytes(v));
      && ReturnCode(r, free, needed, DirFull(v0, DirOf(v, path)))
      && FreeCount(v2.fat, |v2.fat|) == if r == -2 then 0 else free - needed
    ensures WriteCount(v, sh, v2, r, path, size)
  {}

  /** The free clusters that are left, on any volume. */
  lemma StoreCount(v: Vol, v1: Vol, v2: Vol, r: int, d: int, name: Bytes, bytes: Bytes, ch: seq<int>)
    requires Geometry(v) && |name| == 11 && Storing(v, v1, v2, r, d, name, bytes, ch)
    ensures FreeCount(v2.fat, |v2.fat|) ==
      if r == -2 then 0 else FreeCount(v.fat, |v.fat|) - ClustersNeeded(|bytes|, ClusterBytes(v))
  {
    if r == -2 {
      NoneFree(v2.fat, |v2.fat|);
    } else {
      EnteredGeometry(v1, d, MakeEntry(name, ATTR_FILE, ch[0], |bytes|));
    }
  }

  // ----- Making a directory -----

  /** The new directory on a cluster that was free; nothing else changes. */
  ghost predicate Prepared(v: Vol, v1: Vol, d: int, cluster: int) {
    && v1.g == v.g && v.g.spc > 0 && Grown(v.fat, v.data, v1.fat, v1.data, [cluster]) && 0 <= cluster < |v1.data|
    && v1.data[cluster] == DirImage(cluster, if d == v.g.root then 0 else d, v.g.spc)
    && FreeCount(v1.fat, |v1.fat|) + 1 == FreeCount(v.fat, |v.fat|)
  }

  /** "." of the new directory refers to itself, ".." to its parent, or to 0 for the root. */
  lemma NewDirRefers(v: Vol, v1: Vol, d: int, cluster: int)
    requires Prepared(v, v1, d, cluster) && 0 <= cluster < 0x1_0000_0000 && 0 <= d < 0x1_0000_0000
    ensures var S := Slots(v1.data[cluster]);
      |S| == 16 * v.g.spc && First(S[0]) == cluster && First(S[1]) == if d == v.g.root then 0 else d
  {
    DotsRefer(cluster, if d == v.g.root then 0 else d, v.g.spc);
  }

  lemma DirImageBytes(cluster: int, link: int, spc: int)
    requires spc > 0
    ensures IsBytes(DirImage(cluster, link, spc))
  {
    var z := Zeros(512 * spc);
    DotBytes(1, cluster);
    DotBytes(2, link);
    PutSlotBytes(z, 0, DotEntry(1, cluster));
    PutSlotBytes(PutSlot(z, 0, DotEntry(1, cluster)), 1, DotEntry(2, link));
  }

  lemma DotBytes(dots: int, first: int)
    requires dots == 1 || dots == 2
    ensures IsBytes(DotEntry(dots, first))
  {
    MakeEntryBytes((if dots == 1 then [DOT] else [DOT, DOT]) + Spaces(11 - dots), ATTR_DIR, first, 0);
  }

  /** fat32_mkdir from the allocation on: `v1` is the volume with the new directory and without its entry. */
  ghost predicate Making(v: Vol, v1: Vol, v2: Vol, r: int, d: int, name: Bytes, cluster: int)
    requires |v.data| == |v.fat| && |name| == 11
  {
    if FreeCount(v.fat, |v.fat|) == 0 then r == -2 && v2 == v
    else
      && Geometry(v1) && Prepared(v, v1, d, cluster) && (r == 1 || r == -1)
      && (r == 1, v2) == Entered(v1, d, MakeEntry(name, ATTR_DIR, cluster, 0))
  }

  /** The clusters that fat32_mkdir goes to are in the table. */
  ghost predicate MakeReaches(v: Vol, path: Text)
    requires |v.data| == |v.fat|
  {
    SearchedIn(v, PathNames(path)) && (Resolve(v, PathNames(path)) == None ==> ParentReached(v, path))
  }

  /** On a well-formed volume they are, if the parent is reached through directories. */
  lemma DirsReachMake(v: Vol, sh: Shape, path: Text)
    requires WF(v, sh) && CString(path) && InDir(v, path) && ThroughDirs(v, path)
    ensures MakeReaches(v, path)
  {
    PathParts(path);
    DirsSearched(v, sh, ParentNames(path));
    FullName(path);
    SearchedSnoc(v, ParentNames(path), NameOf(path));
  }

  lemma SearchedSnoc(v: Vol, p: Names, n: Bytes)
    requires |v.data| == |v.fat| && SearchedIn(v, p) && Resolve(v, p).Some?
    requires InTable(v, Resolve(v, p).value.cluster)
    ensures SearchedIn(v, p + [n])
  {
    assert (p + [n])[..|p|] == p;
  }

  lemma NewDirObject(v: Vol, v1: Vol, d: int, cluster: int)
    requires Geometry(v) && Geometry(v1) && Prepared(v, v1, d, cluster)
    ensures NewChain(v, v1, [cluster]) && NewObject(v1, true, [cluster], 0)
  {
    BuildEnd(v, v1, [cluster]);
    FreshDir(v1.data, cluster, if d == v.g.root then 0 else d, v.g.spc, v.g.dirLimit);
  }

  /**
   When each code is returned, and what is left: where no volume label bears the name, a well-formed
   volume with the directory; where one does, a volume that is well formed no longer after a 1.
   */
  ghost predicate MadeWell(v: Vol, v2: Vol, sh': Shape, r: int, path: Text)
    requires |v.data| == |v.fat| && |v2.data| == |v2.fat| && InDir(v, path)
  {
    var d := DirOf(v, path);
    && ReturnCode(r, FreeCount(v.fat, |v.fat|), 1, DirFull(v, d))
    && (r != 1 ==> WF(v2, sh'))
    && (NoSuchLabel(v, d, NameOf(path)) ==> WF(v2, sh') && Made(v, v2, r, path))
    && (r == 1 ==> (NoSuchLabel(v, d, NameOf(path)) <==> !NoShape(v2, d)))
  }

  /** What these steps mean where the parent is reached through directories. */
  lemma MakeMeans(v: Vol, sh: Shape, v1: Vol, v2: Vol, r: int, path: Text, cluster: int) returns (sh': Shape)
    requires WF(v, sh) && CString(path) && InDir(v, path) && DirPath(v, ParentNames(path))
    requires Resolve(v, PathNames(path)) == None
    requires Making(v, v1, v2, r, DirOf(v, path), NameOf(path), cluster)
    ensures |v2.data| == |v2.fat| && MadeWell(v, v2, sh', r, path)
  {
    var p, name, d := ParentNames(path), NameOf(path), DirOf(v, path);
    PathParts(path);
    MissingIsFresh(v, sh, path);
    DirPathInside(v, sh, p);
    sh' := sh;
    if r == -2 {
      KeptRefl(v, p + [name]);
      NoneFree(v.fat, |v.fat|);
      if NameFresh(DirAt(v, d), name) { FreshIsNone(v, p, name); }
    } else {
      NewDirObject(v, v1, d, cluster);
      BuildEnd(v, v1, [cluster]);
      BuildOutcome(v, v1, sh, p, name);
      var ci, k, pos := EnteredAt(v1, sh, d, MakeEntry(name, ATTR_DIR, cluster, 0));
      if r == 1 { sh' := DirAdded(v, v1, sh, p, ci, k, pos, name, [cluster]); }
    }
  }
}
