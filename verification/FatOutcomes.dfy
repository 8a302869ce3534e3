/**
 What deleting, writing and making a directory leave behind, on every return.
 */
module FatOutcomes {
  import opened FatTable
  import opened FatDir
  import opened FatVolume
  import opened FatSteps
  import opened PathText
  import opened FatPaths
  import opened FatLoops
  import opened FatWalk

  lemma EntryInRange(v: Vol, sh: Shape, d: int, pos: int)
    requires WF(v, sh) && d in sh.objs && sh.objs[d].isDir && 0 <= pos < |DirAt(v, d)| && IsRef(DirAt(v, d)[pos])
    ensures First(DirAt(v, d)[pos]) < |v.fat|
  {
    assert DirGood(v, sh, d) && SlotOK(v, sh, d, pos, DirAt(v, d)[pos]);
    assert ChainOK(v, sh, v.g.root);
    if First(DirAt(v, d)[pos]) != 0 { assert ChainOK(v, sh, First(DirAt(v, d)[pos])); }
  }

  lemma DeletedIsFresh(v: Vol, sh: Shape, d: int, pos: int, name: Bytes)
    requires WF(v, sh) && d in sh.objs && sh.objs[d].isDir && 0 <= pos < |DirAt(v, d)|
    requires Hit(DirAt(v, d)[pos], name)
    ensures NameFresh(DirAt(v, d)[pos := DirAt(v, d)[pos][0 := DELETED]], name)
  {
    assert DirGood(v, sh, d);
  }

  /** The first slot from `i` on that deletion would take for `name`, or the length. */
  function FirstHit(S: seq<Bytes>, name: Bytes, i: nat): (k: nat)
    requires i <= |S| && forall j :: 0 <= j < |S| ==> |S[j]| == 32
    ensures i <= k <= |S| && (k < |S| ==> Hit(S[k], name))
    decreases |S| - i
  {
    if i == |S| || Hit(S[i], name) then i else FirstHit(S, name, i + 1)
  }

  lemma {:induction false} HitIsFirst(S: seq<Bytes>, name: Bytes, i: nat, k: nat)
    requires DirOK(S) && i <= k < |S| && Hit(S[k], name)
    ensures FirstHit(S, name, i) == k
    decreases k - i
  {
    if i < k { HitIsFirst(S, name, i + 1, k); }
  }

  lemma {:induction false} FreshHasNoHit(S: seq<Bytes>, name: Bytes, i: nat)
    requires i <= |S| && (forall j :: 0 <= j < |S| ==> |S[j]| == 32) && NameFresh(S, name)
    ensures FirstHit(S, name, i) == |S|
    decreases |S| - i
  {
    if i < |S| { FreshHasNoHit(S, name, i + 1); }
  }

  /** How many clusters hang on `name` in directory `d`. */
  ghost function Held(v: Vol, sh: Shape, d: int, name: Bytes): (n: nat)
    requires |v.data| == |v.fat|
  {
    var S := DirAt(v, d);
    var k := FirstHit(S, name, 0);
    if k < |S| && First(S[k]) in sh.objs then |sh.objs[First(S[k])].chain| else 0
  }

  /** The directory of `path` is where it was and no longer holds its name; all other paths are as before. */
  ghost predicate Cleared(v: Vol, v': Vol, sh': Shape, path: Text)
    requires |v.data| == |v.fat| && |v'.data| == |v'.fat| && InDir(v, path)
  {
    && InDir(v', path) && DirPath(v', ParentNames(path)) && DirOf(v', path) == DirOf(v, path)
    && DirOf(v', path) in sh'.objs && sh'.objs[DirOf(v', path)].isDir
    && NameFresh(DirAt(v', DirOf(v', path)), NameOf(path))
    && OthersKept(v, v', ParentNames(path) + [NameOf(path)])
  }

  /** What removing the found entry leaves behind. */
  lemma DeleteOutcome(v: Vol, sh: Shape, p: Names, ci: int, k: int, pos: int, name: Bytes)
    requires WF(v, sh) && DirPath(v, p) && Proper(p) && Resolve(v, p).Some? && |name| == 11 && name[0] != DOT
    requires var d := Resolve(v, p).value.cluster; AtSlot(v, sh, d, ci, k, pos) && Hit(DirAt(v, d)[pos], name)
    ensures var d := Resolve(v, p).value.cluster;
      var v' := AfterDelete(v, Visible(sh.objs[d].chain, v.g.dirLimit)[ci], k);
      var sh' := ShapeWithout(sh, First(DirAt(v, d)[pos]));
      && IsRef(DirAt(v, d)[pos]) && WF(v', sh') && d in sh'.objs && sh'.objs[d].isDir
      && DirPath(v', p) && Resolve(v', p) == Resolve(v, p)
      && NameFresh(DirAt(v', d), name) && OthersKept(v, v', p + [name])
  {
    var d := Resolve(v, p).value.cluster;
    assert DirAt(v, d)[pos][0] == Name(DirAt(v, d)[pos])[0];
    DeleteStep(v, sh, p, ci, k, pos);
    StepKept(v, sh, AfterDelete(v, Visible(sh.objs[d].chain, v.g.dirLimit)[ci], k), p, name, First(DirAt(v, d)[pos]));
    DeletedIsFresh(v, sh, d, pos, name);
  }

  /** ... and the room it makes: a free slot, and the clusters that hung on the name. */
  lemma DeleteRoom(v: Vol, sh: Shape, p: Names, ci: int, k: int, pos: int, name: Bytes)
    requires WF(v, sh) && DirPath(v, p) && Proper(p) && Resolve(v, p).Some? && |name| == 11 && name[0] != DOT
    requires var d := Resolve(v, p).value.cluster; AtSlot(v, sh, d, ci, k, pos) && Hit(DirAt(v, d)[pos], name)
    ensures var d := Resolve(v, p).value.cluster;
      var v' := AfterDelete(v, Visible(sh.objs[d].chain, v.g.dirLimit)[ci], k);
      && |v'.data| == |v'.fat| == |v.fat| && !DirFull(v', d)
      && FreeCount(v'.fat, |v.fat|) == FreeCount(v.fat, |v.fat|) + Held(v, sh, d, name)
  {
    var d := Resolve(v, p).value.cluster;
    assert DirAt(v, d)[pos][0] == Name(DirAt(v, d)[pos])[0];
    DeleteStep(v, sh, p, ci, k, pos);
    DeleteCount(v, sh, d, pos, name);
    var v' := AfterDelete(v, Visible(sh.objs[d].chain, v.g.dirLimit)[ci], k);
    assert !Live(DirAt(v', d)[pos]);
  }

  /** The clusters that hung on the name become free. */
  lemma DeleteCount(v: Vol, sh: Shape, d: int, pos: int, name: Bytes)
    requires WF(v, sh) && d in sh.objs && sh.objs[d].isDir && 0 <= pos < |DirAt(v, d)|
    requires Hit(DirAt(v, d)[pos], name) && IsRef(DirAt(v, d)[pos])
    ensures var fat' := Freed(v.fat, First(DirAt(v, d)[pos]));
      |fat'| == |v.fat| && FreeCount(fat', |v.fat|) == FreeCount(v.fat, |v.fat|) + Held(v, sh, d, name)
  {
    var gone := First(DirAt(v, d)[pos]);
    assert DirGood(v, sh, d) && SlotOK(v, sh, d, pos, DirAt(v, d)[pos]);
    HitIsFirst(DirAt(v, d), name, 0, pos);
    if gone in sh.objs {
      assert ChainOK(v, sh, gone);
      DistinctChain(v, sh, gone);
      FreedCount(v.fat, sh.objs[gone].chain);
    }
  }

  lemma DistinctChain(v: Vol, sh: Shape, f: int)
    requires WF(v, sh) && f in sh.objs
    ensures var ch := sh.objs[f].chain; forall i, j :: 0 <= i < j < |ch| ==> ch[i] != ch[j]
  {
    var ch := sh.objs[f].chain;
    forall i, j | 0 <= i < j < |ch| ensures ch[i] != ch[j] {
      if ch[i] == ch[j] { ChainsDisjoint(v, sh, f, i, f, j); }
    }
  }

  /**
   When each code is returned: -2 exactly when `free` clusters are too few, otherwise -1
   exactly when the directory is `full`.
   */
  predicate ReturnCode(r: int, free: int, needed: int, full: bool) {
    && (r == -2 <==> free < needed) && (r == -1 <==> free >= needed && full) && (r == 1 <==> free >= needed && !full)
  }

  /** fat32_delete_file on any volume: what it returns, and the volume it leaves. */
  ghost function Deletion(v: Vol, path: Text): (int, Vol)
    requires Geometry(v)
  {
    if !InDir(v, path) then (-1, v)
    else
      match DeleteSearch(v, DirOf(v, path), v.g.dirLimit, NameOf(path))
      case None => (-1, v)
      case Some((c, k)) => (1, AfterDelete(v, c, k))
  }

  /** The clusters that looking up the parent of `path` goes to are in the table, and so is the parent. */
  ghost predicate ParentReached(v: Vol, path: Text)
    requires |v.data| == |v.fat|
  {
    LastSlash(path, |path|) >= 0 ==>
      SearchedIn(v, ParentNames(path)) && (InDir(v, path) ==> InTable(v, DirOf(v, path)))
  }

  /** The clusters that a deletion goes to are in the table. */
  ghost predicate Reaches(v: Vol, path: Text)
    requires Geometry(v)
  {
    && ParentReached(v, path)
    && (InDir(v, path) ==>
          match DeleteSearch(v, DirOf(v, path), v.g.dirLimit, NameOf(path))
          case None => true
          case Some((c, k)) => InTable(v, First(SlotAt(v.data[c], k))))
  }

  /** On a well-formed volume a path of directories stays in the table. */
  lemma {:induction false} DirsSearched(v: Vol, sh: Shape, p: Names)
    requires WF(v, sh) && DirPath(v, p) && Proper(p)
    ensures SearchedIn(v, p) && Resolve(v, p).Some? && InTable(v, Resolve(v, p).value.cluster)
  {
    DirPathInside(v, sh, p);
    assert ChainOK(v, sh, Resolve(v, p).value.cluster);
    if p != [] { DirsSearched(v, sh, p[..|p| - 1]); }
  }

  /** On a well-formed volume a deletion does, if the parent is reached through directories. */
  lemma DirsReach(v: Vol, sh: Shape, path: Text)
    requires WF(v, sh) && CString(path) && InDir(v, path) && ThroughDirs(v, path)
    ensures Reaches(v, path)
  {
    var d := DirOf(v, path);
    PathParts(path);
    DirPathInside(v, sh, ParentNames(path));
    DirsSearched(v, sh, ParentNames(path));
    var ci, pos := SearchFinds(v, sh, d, NameOf(path));
    if DeleteSearch(v, d, v.g.dirLimit, NameOf(path)).Some? {
      assert DirAt(v, d)[pos][0] == Name(DirAt(v, d)[pos])[0];
      EntryInRange(v, sh, d, pos);
    }
  }

  /** The room a deletion makes: the clusters that hung on the name, and a free slot if there was one. */
  ghost predicate Room(v: Vol, sh: Shape, v': Vol, path: Text)
    requires |v.data| == |v.fat| && |v'.data| == |v'.fat| && InDir(v, path)
  {
    var d := DirOf(v, path);
    && |v'.fat| == |v.fat| && FreeCount(v'.fat, |v.fat|) == FreeCount(v.fat, |v.fat|) + Held(v, sh, d, NameOf(path))
    && DirFull(v', d) == (DirFull(v, d) && NameFresh(DirAt(v, d), NameOf(path)))
  }

  /** What a deletion means where the parent is reached through directories. */
  lemma DeletionMeans(v: Vol, sh: Shape, path: Text) returns (sh': Shape)
    requires WF(v, sh) && CString(path) && ThroughDirs(v, path)
    ensures var (r, v') := Deletion(v, path); WF(v', sh') && (r == -1 ==> sh' == sh)
    ensures InDir(v, path) ==>
      var (r, v') := Deletion(v, path);
      && r == (if NameFresh(DirAt(v, DirOf(v, path)), NameOf(path)) then -1 else 1)
      && Cleared(v, v', sh', path) && Room(v, sh, v', path)
  {
    sh' := sh;
    if InDir(v, path) {
      var d, p, name := DirOf(v, path), ParentNames(path), NameOf(path);
      PathParts(path);
      DirPathInside(v, sh, p);
      var ci, pos := SearchFinds(v, sh, d, name);
      match DeleteSearch(v, d, v.g.dirLimit, name)
      case None =>
        KeptRefl(v, p + [name]);
        FreshHasNoHit(DirAt(v, d), name, 0);
      case Some((c, k)) =>
        DeleteOutcome(v, sh, p, ci, k, pos, name);
        DeleteRoom(v, sh, p, ci, k, pos, name);
        sh' := ShapeWithout(sh, First(DirAt(v, d)[pos]));
    }
  }

  lemma KeptRefl(v: Vol, full: Names)
    requires |v.data| == |v.fat|
    ensures OthersKept(v, v, full)
  {}

  // ----- What storing a file leaves behind -----

  function ClustersNeeded(size: int, cb: int): (n: int)
    requires 0 <= size && cb > 0
    ensures n >= 1 && n * cb >= size && if size > 0 then (n - 1) * cb < size else n == 1
  {
    if size == 0 then 1
    else
      var n := (size + cb - 1) / cb;
      CeilDiv(size, cb);
      n
  }

  lemma CeilDiv(size: int, cb: int)
    requires size > 0 && cb > 0
    ensures var n := (size + cb - 1) / cb; n >= 1 && n * cb >= size && (n - 1) * cb < size
  {
    var n := (size + cb - 1) / cb;
    assert n * cb + (size + cb - 1) % cb == size + cb - 1;
    assert (n - 1) * cb == n * cb - cb;
  }

  /** The path finds a file of that size; it reads back exactly when the read limit covers it. */
  ghost predicate Stored(v: Vol, full: Names, bytes: Bytes)
    requires |v.data| == |v.fat|
  {
    && Resolve(v, full).Some? && !Resolve(v, full).value.isDir && Resolve(v, full).value.size == |bytes|
    && (ReadNode(v, Resolve(v, full).value) == bytes <==> |bytes| <= v.g.fileLimit * ClusterBytes(v))
  }

  lemma {:induction false} ContentsLength(data: seq<Bytes>, ch: seq<int>, cb: int)
    requires Within(ch, |data|) && Sized(data, cb)
    ensures |Contents(data, ch)| == |ch| * cb
  {
    if ch != [] {
      ContentsLength(data, ch[1..], cb);
      assert |ch| * cb == cb + (|ch| - 1) * cb;
    }
  }

  lemma FullName(path: Text)
    requires LastSlash(path, |path|) >= 0
    ensures LastToken(path) != [] ==> PathNames(path) == ParentNames(path) + [NameOf(path)]
    ensures LastToken(path) == [] ==> PathNames(path) == ParentNames(path)
  {
    PathSplits(path);
    EmptyTail(ParentNames(path));
  }

  lemma EmptyTail(p: Names)
    ensures p + [] == p
  {}

  /** What the path text reads after its full name was stored, or stored hidden. */
  lemma WriteSeen(v: Vol, path: Text, bytes: Bytes, names: Names, full: Names)
    requires |v.data| == |v.fat| && names == PathNames(path)
    requires Stored(v, full, bytes) || Resolve(v, full) == None
    requires names == full || (Resolve(v, names).Some? && Resolve(v, names).value.isDir)
    ensures FindsFile(v, path, |bytes|) == (names == full && Resolve(v, full).Some?)
    ensures ReadResult(v, path) == Some(bytes) <==>
      FindsFile(v, path, |bytes|) && |bytes| <= v.g.fileLimit * ClusterBytes(v)
  {}

  /** The path resolves to a file of `size` bytes. */
  predicate FindsFile(v: Vol, path: Text, size: int)
    requires |v.data| == |v.fat|
  {
    match Resolve(v, PathNames(path))
    case None => false
    case Some(n) => !n.isDir && n.size == size
  }

  /**
   The outcome of a write.  Every other path is as before.  After a 1 the path finds a file
   of that size exactly when it has a last token and no byte of its 8.3 name is 0x80 or more,
   and reads back the data exactly when the read limit covers it, too.  After a failure the
   name is gone; -2 means that no cluster is free, and -1 that the directory has no free slot.
   */
  ghost predicate Written(v: Vol, v': Vol, r: int, path: Text, bytes: Bytes)
    requires |v.data| == |v.fat| && |v'.data| == |v'.fat|
  {
    && (r == 1 || r == -1 || r == -2)
    && if InDir(v, path) then
         && OthersKept(v, v', ParentNames(path) + [NameOf(path)])
         && (r == 1 ==> FindsFile(v', path, |bytes|) == (LastToken(path) != [] && Findable(NameOf(path))))
         && (r == 1 ==>
               (ReadResult(v', path) == Some(bytes) <==>
                  FindsFile(v', path, |bytes|) && |bytes| <= v'.g.fileLimit * ClusterBytes(v')))
         && (r != 1 ==> Resolve(v', ParentNames(path) + [NameOf(path)]) == None)
         && (r == -2 ==> forall c :: !IsFree(v'.fat, c))
         && (r == -1 ==> DirFull(v', DirOf(v, path)))
       else r == -1 && v' == v
  }

  lemma WrittenNow(v: Vol, v': Vol, r: int, path: Text, bytes: Bytes)
    requires |v.data| == |v.fat| && |v'.data| == |v'.fat| && InDir(v, path) && (r == 1 || r == -1 || r == -2)
    requires Resolve(v', ParentNames(path)) == Resolve(v, ParentNames(path))
    requires var full := ParentNames(path) + [NameOf(path)];
      && OthersKept(v, v', full)
      && (r == 1 && Findable(NameOf(path)) ==> Stored(v', full, bytes))
      && (r != 1 || !Findable(NameOf(path)) ==> Resolve(v', full) == None)
    requires (r == -2 ==> forall c :: !IsFree(v'.fat, c)) && (r == -1 ==> DirFull(v', DirOf(v, path)))
    ensures Written(v, v', r, path, bytes)
  {
    var names, full := PathNames(path), ParentNames(path) + [NameOf(path)];
    FullName(path);
    assert |full| == |ParentNames(path)| + 1;
    WriteSeen(v', path, bytes, names, full);
  }

  lemma WrittenAfter(v: Vol, v1: Vol, v2: Vol, r: int, path: Text, bytes: Bytes)
    requires |v.data| == |v.fat| && |v1.data| == |v1.fat| && |v2.data| == |v2.fat|
    requires
      if InDir(v, path) then
        InDir(v1, path) && DirOf(v1, path) == DirOf(v, path) && OthersKept(v, v1, ParentNames(path) + [NameOf(path)])
      else v1 == v
    requires Written(v1, v2, r, path, bytes)
    ensures Written(v, v2, r, path, bytes)
  {
    if InDir(v, path) { OthersTrans(v, v1, v2, ParentNames(path) + [NameOf(path)]); }
  }

  lemma ReadBack(data: seq<Bytes>, ch: seq<int>, bytes: Bytes, cb: int, limit: int)
    requires Within(ch, |data|) && Sized(data, cb) && cb > 0 && limit > 0 && |ch| == ClustersNeeded(|bytes|, cb)
    requires Contents(data, ch) == PadTo(bytes, |ch| * cb)
    ensures Take(Contents(data, Visible(ch, limit)), |bytes|) == bytes <==> |bytes| <= limit * cb
  {
    if |ch| <= limit {
      Monotone(|ch|, limit, cb);
      TakePadded(bytes, |ch| * cb);
    } else {
      CutShort(data, ch, bytes, cb, limit);
    }
  }

  /** A chain longer than the limit is cut off before the data's end. */
  lemma CutShort(data: seq<Bytes>, ch: seq<int>, bytes: Bytes, cb: int, limit: int)
    requires Within(ch, |data|) && Sized(data, cb) && cb > 0 && 0 < limit < |ch| == ClustersNeeded(|bytes|, cb)
    ensures limit * cb < |bytes| && Take(Contents(data, ch[..limit]), |bytes|) != bytes
  {
    ContentsLength(data, ch[..limit], cb);
    Monotone(limit, |ch| - 1, cb);
    TakeShort(Contents(data, ch[..limit]), bytes);
  }

  lemma TakePadded(bytes: Bytes, n: int)
    requires n >= |bytes|
    ensures Take(PadTo(bytes, n), |bytes|) == bytes
  {}

  lemma TakeShort(b: Bytes, bytes: Bytes)
    requires |b| < |bytes|
    ensures Take(b, |bytes|) != bytes
  {}

  lemma Monotone(a: int, b: int, c: int)
    requires a <= b && 0 <= c
    ensures a * c <= b * c
  {}

  lemma FreshIsNone(v: Vol, p: Names, name: Bytes)
    requires |v.data| == |v.fat| && Resolve(v, p).Some? && NameFresh(DirAt(v, Resolve(v, p).value.cluster), name)
    ensures Resolve(v, p + [name]) == None
  {
    ResolveSnoc(v, p, name);
  }

  lemma BuildOutcome(v: Vol, v1: Vol, sh: Shape, p: Names, name: Bytes)
    requires WF(v, sh) && DirPath(v, p) && Proper(p) && Resolve(v, p).Some? && |name| == 11 && name[0] != DOT
    requires Geometry(v1) && v1.g == v.g && |v1.fat| == |v.fat|
    requires forall c :: 0 <= c < |v.fat| && !IsFree(v.fat, c) ==> v1.fat[c] == v.fat[c] && v1.data[c] == v.data[c]
    ensures WF(v1, sh) && forall f :: f in sh.objs ==> Untouched(v, v1, sh, f)
    ensures Resolve(v1, p) == Resolve(v, p) && OthersKept(v, v1, p + [name])
    ensures var d := Resolve(v, p).value.cluster;
      DirAt(v1, d) == DirAt(v, d) && (NameFresh(DirAt(v, d), name) ==> Resolve(v1, p + [name]) == None)
  {
    var d := Resolve(v, p).value.cluster;
    DirPathInside(v, sh, p);
    forall f | f in sh.objs ensures Untouched(v, v1, sh, f) { FreeUntouched(v, v1, sh, f); }
    BuildKeeps(v, v1, sh, d, name);
    StepKept(v, sh, v1, p, name, 0);
    ObjectKept(v, v1, sh, d);
    if NameFresh(DirAt(v, d), name) { FreshIsNone(v1, p, name); }
  }

  lemma StoreOutcome(v: Vol, v1: Vol, sh: Shape, p: Names, ci: int, k: int, pos: int, name: Bytes, ch: seq<int>,
                     bytes: Bytes)
    requires WF(v, sh) && DirPath(v, p) && Proper(p) && Resolve(v, p).Some? && Geometry(v1) && v1.g == v.g
    requires |name| == 11 && name[0] != DOT && name[0] != END_MARK && name[0] != DELETED && |bytes| < 0x8000_0000
    requires forall f :: f in sh.objs ==> Untouched(v, v1, sh, f)
    requires NewChain(v, v1, ch) && |ch| == ClustersNeeded(|bytes|, ClusterBytes(v))
    requires Contents(v1.data, ch) == PadTo(bytes, |ch| * ClusterBytes(v))
    requires var d := Resolve(v, p).value.cluster;
      AtSlot(v1, sh, d, ci, k, pos) && FirstFree(DirAt(v1, d), pos) && NameFresh(DirAt(v1, d), name)
    ensures var d := Resolve(v, p).value.cluster;
      var v2 := v1.(data := PutAt(v1, Visible(sh.objs[d].chain, v.g.dirLimit)[ci], k,
        MakeEntry(name, ATTR_FILE, ch[0], |bytes|)));
      && WF(v2, ShapeWith(sh, false, ch, d, pos))
      && Resolve(v2, p) == Resolve(v, p) && OthersKept(v, v2, p + [name])
      && (if Findable(name) then Stored(v2, p + [name], bytes) else Resolve(v2, p + [name]) == None)
  {
    var d := Resolve(v, p).value.cluster;
    var v2 := v1.(data := PutAt(v1, Visible(sh.objs[d].chain, v.g.dirLimit)[ci], k,
      NewEntry(name, false, ch, |bytes|)));
    AddStep(v, v1, sh, d, ci, k, pos, name, false, ch, |bytes|);
    StepKept(v, sh, v2, p, name, 0);
    ResolveSnoc(v2, p, name);
    ReadBack(v1.data, ch, bytes, ClusterBytes(v), v.g.fileLimit);
  }

  lemma HiddenOutcome(v: Vol, v1: Vol, sh: Shape, p: Names, ci: int, k: int, pos: int, name: Bytes, e: Bytes)
    requires WF(v, sh) && DirPath(v, p) && Proper(p) && Resolve(v, p).Some? && Geometry(v1) && v1.g == v.g
    requires |name| == 11 && name[0] == DELETED && |e| == 32 && e[0] == DELETED
    requires forall f :: f in sh.objs ==> Untouched(v, v1, sh, f)
    requires var d := Resolve(v, p).value.cluster; AtSlot(v1, sh, d, ci, k, pos) && FirstFree(DirAt(v1, d), pos)
    ensures var d := Resolve(v, p).value.cluster;
      var v2 := v1.(data := PutAt(v1, Visible(sh.objs[d].chain, v.g.dirLimit)[ci], k, e));
      && WF(v2, sh) && DirPath(v2, p) && Resolve(v2, p) == Resolve(v, p)
      && OthersKept(v, v2, p + [name]) && Resolve(v2, p + [name]) == None
  {
    var d := Resolve(v, p).value.cluster;
    var v2 := v1.(data := PutAt(v1, Visible(sh.objs[d].chain, v.g.dirLimit)[ci], k, e));
    AddHidden(v, v1, sh, d, ci, k, pos, name, e);
    StepKept(v, sh, v2, p, name, 0);
    ResolveSnoc(v2, p, name);
    NeverFound(v2, d, name);
  }

  lemma AddOutcome(v: Vol, v1: Vol, sh: Shape, p: Names, ci: int, k: int, pos: int, name: Bytes, ch: seq<int>,
                   bytes: Bytes)
    requires WF(v, sh) && DirPath(v, p) && Proper(p) && Resolve(v, p).Some? && Geometry(v1) && v1.g == v.g
    requires |name| == 11 && name[0] != DOT && name[0] != END_MARK && |bytes| < 0x8000_0000
    requires forall f :: f in sh.objs ==> Untouched(v, v1, sh, f)
    requires NewChain(v, v1, ch) && |ch| == ClustersNeeded(|bytes|, ClusterBytes(v))
    requires Contents(v1.data, ch) == PadTo(bytes, |ch| * ClusterBytes(v))
    requires var d := Resolve(v, p).value.cluster;
      AtSlot(v1, sh, d, ci, k, pos) && FirstFree(DirAt(v1, d), pos) && NameFresh(DirAt(v1, d), name)
    ensures var d := Resolve(v, p).value.cluster;
      var v2 := v1.(data := PutAt(v1, Visible(sh.objs[d].chain, v.g.dirLimit)[ci], k,
        MakeEntry(name, ATTR_FILE, ch[0], |bytes|)));
      && WF(v2, if name[0] == DELETED then sh else ShapeWith(sh, false, ch, d, pos))
      && Resolve(v2, p) == Resolve(v, p) && OthersKept(v, v2, p + [name])
      && (if Findable(name) then Stored(v2, p + [name], bytes) else Resolve(v2, p + [name]) == None)
  {
    if name[0] == DELETED {
      HiddenOutcome(v, v1, sh, p, ci, k, pos, name, MakeEntry(name, ATTR_FILE, ch[0], |bytes|));
    } else {
      StoreOutcome(v, v1, sh, p, ci, k, pos, name, ch, bytes);
    }
  }

  /** A name with a byte of 0x80 or more, such as the deletion mark, is never found. */
  lemma NeverFound(v: Vol, d: int, name: Bytes)
    requires |v.data| == |v.fat| && !Findable(name)
    ensures Entry(v, d, name) == None
  {}

  // ----- What making a directory leaves behind -----

  /** The path finds an empty directory at `cluster`. */
  ghost predicate MadeDir(v: Vol, full: Names, cluster: int)
    requires |v.data| == |v.fat|
  {
    && Resolve(v, full) == Some(Node(cluster, true, 0))
    && forall n :: |n| == 11 && n[0] != DOT ==> Entry(v, cluster, n) == None
  }

  ghost predicate NoSuchLabel(v: Vol, d: int, name: Bytes)
    requires |v.data| == |v.fat|
  {
    forall i :: 0 <= i < |DirAt(v, d)| && IsLabel(DirAt(v, d)[i]) ==> !Hit(DirAt(v, d)[i], name)
  }

  /** The outcome of making a directory where the path did not resolve. */
  ghost predicate Made(v: Vol, v': Vol, r: int, path: Text)
    requires |v.data| == |v.fat| && |v'.data| == |v'.fat| && InDir(v, path)
  {
    var full := ParentNames(path) + [NameOf(path)];
    && (r == 1 || r == -1 || r == -2)
    && OthersKept(v, v', full)
    && (r == 1 && Findable(NameOf(path)) ==> exists cluster :: MadeDir(v', full, cluster) && IsFree(v.fat, cluster))
    && (r != 1 || !Findable(NameOf(path)) ==> Resolve(v', full) == None)
    && (r == -2 ==> forall c :: !IsFree(v'.fat, c))
    && (r == -1 ==> DirFull(v', DirOf(v, path)))
  }

  function DotEntry(dots: int, first: int): (e: Bytes)
    requires dots == 1 || dots == 2
    ensures |e| == 32
  {
    MakeEntry((if dots == 1 then [DOT] else [DOT, DOT]) + Spaces(11 - dots), ATTR_DIR, first, 0)
  }

  function DirImage(cluster: int, link: int, spc: int): (b: Bytes)
    requires spc > 0
    ensures |b| == 512 * spc
  {
    PutSlot(PutSlot(Zeros(512 * spc), 0, DotEntry(1, cluster)), 1, DotEntry(2, link))
  }

  lemma FreshDirSlots(cluster: int, link: int, spc: int)
    requires spc > 0
    ensures var S := Slots(DirImage(cluster, link, spc));
      && |S| == 16 * spc && DirOK(S) && (forall k :: 0 <= k < |S| ==> !IsRef(S[k]))
      && S[0] == DotEntry(1, cluster) && S[1] == DotEntry(2, link) && forall k :: 2 <= k < |S| ==> S[k] == Zeros(32)
  {
    var z := Zeros(512 * spc);
    SlotsAfterPut(z, 0, DotEntry(1, cluster));
    SlotsAfterPut(PutSlot(z, 0, DotEntry(1, cluster)), 1, DotEntry(2, link));
    var S := Slots(DirImage(cluster, link, spc));
    assert S == Slots(z)[0 := DotEntry(1, cluster)][1 := DotEntry(2, link)];
    DotSlots(S, cluster, link);
  }

  /** The entry "." refers to the new directory and ".." to its parent, both as directories; the rest is unused. */
  lemma DotsRefer(cluster: int, link: int, spc: int)
    requires spc > 0 && 0 <= cluster < 0x1_0000_0000 && 0 <= link < 0x1_0000_0000
    ensures var S := Slots(DirImage(cluster, link, spc));
      && |S| == 16 * spc && First(S[0]) == cluster && First(S[1]) == link
      && Name(S[0]) == ['.' as int] + seq(10, _ => ' ' as int)
      && Name(S[1]) == ['.' as int, '.' as int] + seq(9, _ => ' ' as int)
      && IsDirEntry(S[0]) && IsDirEntry(S[1]) && !IsLabel(S[0]) && !IsLabel(S[1]) && Size(S[0]) == Size(S[1]) == 0
      && forall k :: 2 <= k < |S| ==> S[k] == seq(32, _ => 0)
  {
    FreshDirSlots(cluster, link, spc);
    EntryRoundTrip([DOT] + Spaces(10), ATTR_DIR, cluster, 0);
    EntryRoundTrip([DOT, DOT] + Spaces(9), ATTR_DIR, link, 0);
  }

  /** Two dot entries and then nothing. */
  lemma DotSlots(S: seq<Bytes>, cluster: int, link: int)
    requires |S| >= 2 && S[0] == DotEntry(1, cluster) && S[1] == DotEntry(2, link)
    requires (forall k :: 0 <= k < |S| ==> |S[k]| == 32) && forall k :: 2 <= k < |S| ==> S[k][0] == 0
    ensures DirOK(S) && forall k :: 0 <= k < |S| ==> !IsRef(S[k])
  {
    assert Name(S[0])[1] == SPACE && Name(S[1])[1] == DOT;
  }

  /** A free cluster marked as an end is a new chain, and nothing else changes. */
  lemma TakeOne(v: Vol, c: int, b: Bytes)
    requires |v.data| == |v.fat| < EOC_MIN && IsFree(v.fat, c)
    ensures var fat1 := SetEntry(v.fat, c, EOC);
      && Grown(v.fat, v.data, fat1, v.data[c := b], [c])
      && FreeCount(fat1, |fat1|) + 1 == FreeCount(v.fat, |v.fat|)
  {
    ChainGrows(v.fat, [], c);
    assert [] + [c] == [c];
    FreeAfterSet(v.fat, c, EOC, |v.fat|);
  }

  lemma FreshDir(data: seq<Bytes>, cluster: int, link: int, spc: int, limit: int)
    requires spc > 0 && limit > 0 && 0 <= cluster < |data| && data[cluster] == DirImage(cluster, link, spc)
    ensures var S := DirSlots(data, Visible([cluster], limit)); DirOK(S) && forall k :: 0 <= k < |S| ==> !IsRef(S[k])
  {
    FreshDirSlots(cluster, link, spc);
    assert [cluster][1..] == [] && DirSlots(data, [cluster]) == Slots(data[cluster]) + [];
  }

  lemma MissingIsFresh(v: Vol, sh: Shape, path: Text)
    requires WF(v, sh) && CString(path) && InDir(v, path) && DirPath(v, ParentNames(path))
    requires Resolve(v, PathNames(path)) == None
    ensures NameFresh(DirAt(v, DirOf(v, path)), NameOf(path)) <==> NoSuchLabel(v, DirOf(v, path), NameOf(path))
  {
    var d := DirOf(v, path);
    FullName(path);
    PathParts(path);
    DirPathInside(v, sh, ParentNames(path));
    ResolveSnoc(v, ParentNames(path), NameOf(path));
    assert DirGood(v, sh, d);
    forall i | 0 <= i < |DirAt(v, d)| ensures !Matches(DirAt(v, d)[i], NameOf(path)) {
      if Matches(DirAt(v, d)[i], NameOf(path)) { LookupFinds(DirAt(v, d), NameOf(path), i); }
    }
  }

  lemma MkdirOutcome(v: Vol, v1: Vol, sh: Shape, p: Names, ci: int, k: int, pos: int, name: Bytes, ch: seq<int>)
    requires WF(v, sh) && DirPath(v, p) && Proper(p) && Resolve(v, p).Some? && Geometry(v1) && v1.g == v.g
    requires |name| == 11 && name[0] != DOT && name[0] != END_MARK
    requires forall f :: f in sh.objs ==> Untouched(v, v1, sh, f)
    requires NewChain(v, v1, ch) && |ch| == 1 && NewObject(v1, true, ch, 0)
    requires var d := Resolve(v, p).value.cluster;
      AtSlot(v1, sh, d, ci, k, pos) && FirstFree(DirAt(v1, d), pos) && NameFresh(DirAt(v1, d), name)
    ensures var d := Resolve(v, p).value.cluster;
      var v2 := v1.(data := PutAt(v1, Visible(sh.objs[d].chain, v.g.dirLimit)[ci], k,
        MakeEntry(name, ATTR_DIR, ch[0], 0)));
      && WF(v2, if name[0] == DELETED then sh else ShapeWith(sh, true, ch, d, pos))
      && DirPath(v2, p) && Resolve(v2, p) == Resolve(v, p) && OthersKept(v, v2, p + [name])
      && (if Findable(name) then MadeDir(v2, p + [name], ch[0]) else Resolve(v2, p + [name]) == None)
  {
    var e := MakeEntry(name, ATTR_DIR, ch[0], 0);
    if name[0] == DELETED {
      HiddenOutcome(v, v1, sh, p, ci, k, pos, name, e);
    } else {
      var d := Resolve(v, p).value.cluster;
      var v2 := v1.(data := PutAt(v1, Visible(sh.objs[d].chain, v.g.dirLimit)[ci], k, e));
      AddStep(v, v1, sh, d, ci, k, pos, name, true, ch, 0);
      StepKept(v, sh, v2, p, name, 0);
      ResolveSnoc(v2, p, name);
      BuildKeeps(v, v1, sh, d, name);
      NewDirGood(v, v1, sh, ch, d, ci, k, pos, e, sh);
      EmptyDirFinds(DirAt(v2, ch[0]));
    }
  }

  /** No reading of the volume has `d` as a well-formed directory. */
  ghost predicate NoShape(v: Vol, d: int) {
    forall sh: Shape :: d in sh.objs && sh.objs[d].isDir ==> !WF(v, sh)
  }

  /** Two slots that go by the same name. */
  lemma TwinsBreak(v: Vol, d: int, i: int, j: int, name: Bytes)
    requires |v.data| == |v.fat| && 0 <= i < |DirAt(v, d)| && 0 <= j < |DirAt(v, d)| && i != j
    requires Hit(DirAt(v, d)[i], name) && Hit(DirAt(v, d)[j], name)
    ensures NoShape(v, d)
  {
    forall sh: Shape | d in sh.objs && sh.objs[d].isDir ensures !WF(v, sh) {
      if WF(v, sh) { ProperDir(v, sh, d); }
    }
  }

  lemma ProperDir(v: Vol, sh: Shape, d: int)
    requires WF(v, sh) && d in sh.objs && sh.objs[d].isDir
    ensures DirOK(DirAt(v, d))
  {
    assert DirGood(v, sh, d);
  }

  /** The new entry of a directory: all is well if no slot went by its name, and nothing fits if one did. */
  lemma DirAdded(v: Vol, v1: Vol, sh: Shape, p: Names, ci: int, k: int, pos: int, name: Bytes, ch: seq<int>)
    returns (sh': Shape)
    requires WF(v, sh) && WF(v1, sh) && DirPath(v, p) && Proper(p) && Resolve(v, p).Some? && v1.g == v.g
    requires |name| == 11 && name[0] != DOT && name[0] != END_MARK
    requires forall f :: f in sh.objs ==> Untouched(v, v1, sh, f)
    requires NewChain(v, v1, ch) && |ch| == 1 && NewObject(v1, true, ch, 0)
    requires var d := Resolve(v, p).value.cluster; AtSlot(v1, sh, d, ci, k, pos) && FirstFree(DirAt(v1, d), pos)
    ensures DirSettled(v, v1,
      v1.(data := PutAt(v1, Visible(sh.objs[Resolve(v, p).value.cluster].chain, v.g.dirLimit)[ci], k,
                                                MakeEntry(name, ATTR_DIR, ch[0], 0))), sh', p, name, ch[0])
  {
    var d := Resolve(v, p).value.cluster;
    if NameFresh(DirAt(v1, d), name) {
      MkdirOutcome(v, v1, sh, p, ci, k, pos, name, ch);
      sh' := if name[0] == DELETED then sh else ShapeWith(sh, true, ch, d, pos);
      DirPathInside(v1.(data := PutAt(v1, Visible(sh.objs[d].chain, v.g.dirLimit)[ci], k,
        MakeEntry(name, ATTR_DIR, ch[0], 0))), sh', p);
    } else {
      TwinAdded(v1, sh, d, ci, k, pos, name, ch[0]);
      sh' := sh;
    }
  }

  /** What the last step of fat32_mkdir leaves in the directory of `p`. */
  ghost predicate DirSettled(v: Vol, v1: Vol, v2: Vol, sh: Shape, p: Names, name: Bytes, cluster: int)
    requires |v.data| == |v.fat| && |v1.data| == |v1.fat| && Resolve(v, p).Some?
  {
    var d := Resolve(v, p).value.cluster;
    && |v2.data| == |v2.fat|
    && if NameFresh(DirAt(v1, d), name) then
         && WF(v2, sh) && d in sh.objs && sh.objs[d].isDir
         && Resolve(v2, p) == Resolve(v, p) && OthersKept(v, v2, p + [name])
         && (if Findable(name) then MadeDir(v2, p + [name], cluster) else Resolve(v2, p + [name]) == None)
       else NoShape(v2, d)
  }

  /** A new entry under a name that a slot already goes by. */
  lemma TwinAdded(v1: Vol, sh: Shape, d: int, ci: int, k: int, pos: int, name: Bytes, first: int)
    requires WF(v1, sh) && AtSlot(v1, sh, d, ci, k, pos) && !Live(DirAt(v1, d)[pos])
    requires |name| == 11 && name[0] != END_MARK && !NameFresh(DirAt(v1, d), name)
    ensures var v2 := v1.(data := PutAt(v1, Visible(sh.objs[d].chain, v1.g.dirLimit)[ci], k,
      MakeEntry(name, ATTR_DIR, first, 0)));
      |v2.data| == |v2.fat| && NoShape(v2, d)
  {
    var e := MakeEntry(name, ATTR_DIR, first, 0);
    var v2 := v1.(data := PutAt(v1, Visible(sh.objs[d].chain, v1.g.dirLimit)[ci], k, e));
    var S := DirAt(v1, d);
    var i :| 0 <= i < |S| && Hit(S[i], name);
    PutChanges(v1, sh, d, ci, k, pos, e);
    assert Name(e) == name && e[0] == name[0];
    assert name[0] < 0x80;
    TwinsBreak(v2, d, i, pos, name);
  }

  lemma EmptyDirFinds(S: seq<Bytes>)
    requires (forall k :: 0 <= k < |S| ==> |S[k]| == 32) && forall k :: 0 <= k < |S| ==> !IsRef(S[k])
    ensures forall n :: |n| == 11 && n[0] != DOT ==> Lookup(S, n) == None
  {
    assert forall k :: 0 <= k < |S| ==> S[k][0] == Name(S[k])[0];
  }

  /** Table and data differ from before only on the clusters of `ch`, all free before and now a chain. */
  ghost predicate Grown(fat0: seq<int>, data0: seq<Bytes>, fat: seq<int>, data: seq<Bytes>, ch: seq<int>) {
    && |fat| == |fat0| == |data| == |data0|
    && (forall i :: 0 <= i < |ch| ==> IsFree(fat0, ch[i]))
    && (forall i, j :: 0 <= i < j < |ch| ==> ch[i] != ch[j])
    && (forall c :: 0 <= c < |fat| && c !in ch ==> fat[c] == fat0[c] && data[c] == data0[c])
    && (ch != [] ==> IsChain(fat, ch))
  }

  lemma NextIsNew(fat0: seq<int>, data0: seq<Bytes>, fat: seq<int>, data: seq<Bytes>, ch: seq<int>, c: int)
    requires Grown(fat0, data0, fat, data, ch) && IsFree(fat, c)
    ensures c !in ch && IsFree(fat0, c)
  {
    if c in ch {
      var i :| 0 <= i < |ch| && ch[i] == c;
      ChainUsed(fat, ch, i);
    }
  }

  /** Part way through fat32_write_file: the chain `ch` on free clusters holds the bytes so far. */
  ghost predicate Building(fat0: seq<int>, data0: seq<Bytes>, fat: seq<int>, data: seq<Bytes>, ch: seq<int>,
                           bytes: Bytes, cb: int) {
    && Grown(fat0, data0, fat, data, ch) && Within(ch, |data|) && cb > 0 && |ch| * cb >= 0
    && Contents(data, ch) == PadTo(bytes, |ch| * cb)
    && FreeCount(fat, |fat|) + |ch| == FreeCount(fat0, |fat0|)
  }

  lemma BuildStart(fat: seq<int>, data: seq<Bytes>, bytes: Bytes, cb: int)
    requires |fat| == |data| && cb > 0
    ensures Building(fat, data, fat, data, [], bytes, cb)
  {}

  lemma BuildStep(fat0: seq<int>, data0: seq<Bytes>, fat: seq<int>, data: seq<Bytes>, ch: seq<int>, c: int,
                  bytes: Bytes, cb: int)
    requires Building(fat0, data0, fat, data, ch, bytes, cb) && IsFree(fat, c) && |fat| < EOC_MIN
    ensures var fat1 := SetEntry(fat, c, EOC);
      Building(fat0, data0, if ch == [] then fat1 else SetEntry(fat1, ch[|ch| - 1], c),
               data[c := PadTo(Drop(bytes, |ch| * cb), cb)], ch + [c], bytes, cb)
    ensures ch != [] ==> 2 <= ch[|ch| - 1] < |fat| && ch[|ch| - 1] != c
  {
    var b := PadTo(Drop(bytes, |ch| * cb), cb);
    GrowStep(fat0, data0, fat, data, ch, c, b);
    PadGrows(bytes, |ch|, cb);
    if ch != [] { assert ch[|ch| - 1] in ch; }
  }

  /** What was in use before is untouched, and the chain is new. */
  lemma BuildEnd(v: Vol, v1: Vol, ch: seq<int>)
    requires Grown(v.fat, v.data, v1.fat, v1.data, ch)
    ensures forall c :: 0 <= c < |v.fat| && !IsFree(v.fat, c) ==> v1.fat[c] == v.fat[c] && v1.data[c] == v.data[c]
    ensures ch != [] ==> NewChain(v, v1, ch)
  {}

  /** The ends of the chain that the loop keeps in variables. */
  predicate Ends(ch: seq<int>, first: int, prev: int) {
    if ch == [] then prev == 0 else first == ch[0] && prev == ch[|ch| - 1]
  }

  lemma GrowStep(fat0: seq<int>, data0: seq<Bytes>, fat: seq<int>, data: seq<Bytes>, ch: seq<int>, c: int, b: Bytes)
    requires Grown(fat0, data0, fat, data, ch) && IsFree(fat, c) && |fat| < EOC_MIN
    ensures c !in ch
    ensures var fat1 := SetEntry(fat, c, EOC);
      var fat' := if ch == [] then fat1 else SetEntry(fat1, ch[|ch| - 1], c);
      && FreeCount(fat', |fat|) == FreeCount(fat, |fat|) - 1
      && Grown(fat0, data0, fat', data[c := b], ch + [c])
      && Contents(data[c := b], ch + [c]) == Contents(data, ch) + b
  {
    GrowChain(fat0, data0, fat, data, ch, c, b);
    ContentsSnoc(data, ch, c, b);
    GrowCount(fat, ch, c);
  }

  /** A link step takes one free cluster. */
  lemma GrowCount(fat: seq<int>, ch: seq<int>, c: int)
    requires IsFree(fat, c) && c !in ch && (ch == [] || IsChain(fat, ch)) && |fat| < EOC_MIN
    ensures var fat1 := SetEntry(fat, c, EOC);
      FreeCount(if ch == [] then fat1 else SetEntry(fat1, ch[|ch| - 1], c), |fat|) == FreeCount(fat, |fat|) - 1
  {
    var fat1 := SetEntry(fat, c, EOC);
    FreeAfterSet(fat, c, EOC, |fat|);
    if ch != [] {
      ChainUsed(fat, ch, |ch| - 1);
      assert ch[|ch| - 1] in ch;
      FreeAfterSet(fat1, ch[|ch| - 1], c, |fat|);
    }
  }

  lemma GrowChain(fat0: seq<int>, data0: seq<Bytes>, fat: seq<int>, data: seq<Bytes>, ch: seq<int>, c: int, b: Bytes)
    requires Grown(fat0, data0, fat, data, ch) && IsFree(fat, c) && |fat| < EOC_MIN
    ensures c !in ch && Within(ch, |data|)
    ensures var fat1 := SetEntry(fat, c, EOC);
      Grown(fat0, data0, if ch == [] then fat1 else SetEntry(fat1, ch[|ch| - 1], c), data[c := b], ch + [c])
  {
    NextIsNew(fat0, data0, fat, data, ch, c);
    ChainGrows(fat, ch, c);
    if ch != [] { assert ch[|ch| - 1] in ch; }
  }

  lemma ContentsSnoc(data: seq<Bytes>, ch: seq<int>, c: int, b: Bytes)
    requires Within(ch, |data|) && 0 <= c < |data| && c !in ch
    ensures Within(ch + [c], |data|) && Contents(data[c := b], ch + [c]) == Contents(data, ch) + b
  {
    ContentsConcat(data[c := b], ch, [c]);
    DirSlotsFrame(data, data[c := b], ch);
    assert [c][1..] == [] && Contents(data[c := b], [c]) == b + [];
  }
}
