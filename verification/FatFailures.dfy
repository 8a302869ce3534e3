/**
 Where the promises of the FAT32 driver end: names that are written and never found, a
 deletion through the bytes of a file, and a directory that bears a volume label's name.
 */
module FatFailures {
  import opened FatTable
  import opened FatDir
  import opened FatVolume
  import opened FatSteps
  import opened PathText
  import opened FatPaths
  import opened FatLoops
  import opened FatWalk
  import opened FatOutcomes

  // ----- A byte of 0x80 or more -----

  /** No volume lets the path "/\xE9" be read, although it can be written. */
  lemma HighByteNeverRead(v: Vol)
    requires |v.data| == |v.fat|
    ensures CString([SLASH, 0xE9]) && ReadResult(v, [SLASH, 0xE9]) == None
  {
    var path: Text := [SLASH, 0xE9];
    assert path == [] + [SLASH] + [0xE9];
    PathJoin([], [0xE9]);
    assert PathNames([]) == [] && [] + [DosName([0xE9])] == [DosName([0xE9])];
    ShortName(0xE9);
    assert DosName([0xE9])[0] == 0xE9;
    ResolveSnoc(v, [], DosName([0xE9]));
    assert [] + [DosName([0xE9])] == [DosName([0xE9])];
    NeverFound(v, v.g.root, DosName([0xE9]));
  }

  /** The 8.3 name of one character that has no upper case and is no dot. */
  lemma ShortName(c: int)
    requires c != DOT && Upper(c) == c
    ensures DosName([c]) == [c] + Spaces(10)
  {
    var t := [c];
    assert TakeLen(t, 1, 7, true) == 0;
    assert TakeLen(t, 0, 8, true) == 1;
    assert t[..1] == t && UpperAll(t) == [c];
    assert [c] + Spaces(7) + Spaces(3) == [c] + Spaces(10);
  }

  // ----- Small volumes -----

  function Letter(c: int): (n: Bytes)
    ensures |n| == 11 && n[0] == c
  {
    [c] + Spaces(10)
  }

  /** A cluster of one sector with two slots in use. */
  function TwoSlots(a: Bytes, b: Bytes): (r: Bytes)
    requires |a| == 32 && |b| == 32
    ensures |r| == 512
  {
    PutSlot(PutSlot(Zeros(512), 0, a), 1, b)
  }

  lemma TwoSlotsHold(a: Bytes, b: Bytes)
    requires |a| == 32 && |b| == 32
    ensures var S := Slots(TwoSlots(a, b));
      |S| == 16 && S[0] == a && S[1] == b && forall k :: 2 <= k < 16 ==> S[k][0] == END_MARK
  {
    SlotsAfterPut(Zeros(512), 0, a);
    SlotsAfterPut(PutSlot(Zeros(512), 0, a), 1, b);
  }

  /** A directory of one cluster. */
  lemma OneCluster(v: Vol, c: int)
    requires Geometry(v) && 2 <= c < |v.fat| && Val(v.fat[c]) >= EOC_MIN
    ensures DirAt(v, c) == Slots(v.data[c]) && FileAt(v, c) == v.data[c]
  {
    WalkOne(v.fat, c, v.g.dirLimit);
    WalkOne(v.fat, c, v.g.fileLimit);
    OneOnly(v.data, c);
  }

  lemma OneOnly(data: seq<Bytes>, c: int)
    requires 0 <= c < |data|
    ensures DirSlots(data, [c]) == Slots(data[c]) && Contents(data, [c]) == data[c]
  {
    var rest := [c][1..];
    assert rest == [];
    assert DirSlots(data, rest) == [] && Contents(data, rest) == [];
    assert Slots(data[c]) + [] == Slots(data[c]) && data[c] + [] == data[c];
  }

  lemma WalkOne(fat: seq<int>, c: int, limit: int)
    requires 2 <= c < |fat| && Val(fat[c]) >= EOC_MIN && limit > 0 && |fat| < EOC_MIN
    ensures Walk(fat, c, limit) == [c]
  {
    assert Walk(fat, Val(fat[c]), limit - 1) == [];
  }

  const A: Bytes := Letter(65)
  const B: Bytes := Letter(66)
  const S: Bytes := Letter(83)
  const X: Bytes := Letter(88)

  lemma LettersFindable()
    ensures Findable(A) && Findable(B) && Findable(S) && Findable(X)
    ensures DosName([65]) == A && DosName([83]) == S && DosName([88]) == X
  {
    ShortName(65);
    ShortName(83);
    ShortName(88);
  }

  // ----- A deletion through the bytes of a file -----

  /** The bytes of file A: they spell a directory S at A's own cluster, and a file X at that of file B. */
  const Spelt: Bytes := TwoSlots(MakeEntry(S, ATTR_DIR, 3, 0), MakeEntry(X, ATTR_FILE, 4, 512))

  const Root: Bytes := TwoSlots(MakeEntry(A, ATTR_FILE, 3, 512), MakeEntry(B, ATTR_FILE, 4, 512))

  /** A volume with files A and B of one cluster each. */
  function TwoFiles(dirLimit: int, fileLimit: int): Vol {
    Vol(Geo(1, 2, dirLimit, fileLimit), [EOC, EOC, EOC, EOC, EOC], [Zeros(512), Zeros(512), Root, Spelt, Zeros(512)])
  }

  const TwoFilesShape: Shape :=
    Shape(map[2 := Obj(true, [2]), 3 := Obj(false, [3]), 4 := Obj(false, [4])],
          map[2 := (2, 0), 3 := (3, 0), 4 := (4, 0)], map[3 := (2, 0), 4 := (2, 1)])

  lemma FileSlot(name: Bytes, first: int)
    requires |name| == 11 && 0 < name[0] < 0x80 && 0 <= first < 0x10000
    ensures var e := MakeEntry(name, ATTR_FILE, first, 512);
      Name(e) == name && e[0] == name[0] && First(e) == first && Size(e) == 512 && Live(e) && !IsLabel(e)
        && !IsDirEntry(e) && e[11] != ATTR_LFN
  {
    EntryRoundTrip(name, ATTR_FILE, first, 512);
  }

  lemma DirSlot(name: Bytes, first: int)
    requires |name| == 11 && 0 < name[0] < 0x80 && 0 <= first < 0x10000
    ensures var e := MakeEntry(name, ATTR_DIR, first, 0);
      Name(e) == name && e[0] == name[0] && First(e) == first && Size(e) == 0 && Live(e) && !IsLabel(e)
        && IsDirEntry(e) && e[11] != ATTR_LFN
  {
    EntryRoundTrip(name, ATTR_DIR, first, 0);
  }

  lemma TwoFilesGeometry(dirLimit: int, fileLimit: int)
    requires dirLimit > 0 && fileLimit > 0
    ensures Geometry(TwoFiles(dirLimit, fileLimit))
  {}

  /** Two slots with different names, and nothing behind them. */
  lemma TwoSlotsProper(T: seq<Bytes>)
    requires |T| == 16 && (forall k :: 0 <= k < 16 ==> |T[k]| == 32) && forall k :: 2 <= k < 16 ==> T[k][0] == END_MARK
    requires Live(T[0]) && Live(T[1]) && T[0][11] != ATTR_LFN && T[1][11] != ATTR_LFN && Name(T[0]) != Name(T[1])
    ensures DirOK(T)
  {}

  lemma TwoFilesChains(v: Vol)
    requires v.fat == [EOC, EOC, EOC, EOC, EOC]
    ensures forall f :: f in TwoFilesShape.objs ==> ChainOK(v, TwoFilesShape, f)
  {
    forall f | f in TwoFilesShape.objs ensures ChainOK(v, TwoFilesShape, f) {}
  }

  /** The root directory of the volume, here and wherever its cluster and link are the same. */
  lemma RootSlots(v: Vol)
    requires Geometry(v) && v.g.root == 2 && |v.fat| > 2 && Val(v.fat[2]) >= EOC_MIN && v.data[2] == Root
    ensures var T := DirAt(v, 2);
      && |T| == 16 && T[0] == MakeEntry(A, ATTR_FILE, 3, 512) && T[1] == MakeEntry(B, ATTR_FILE, 4, 512)
      && DirOK(T) && forall k :: 2 <= k < 16 ==> T[k][0] == END_MARK
  {
    OneCluster(v, 2);
    TwoSlotsHold(MakeEntry(A, ATTR_FILE, 3, 512), MakeEntry(B, ATTR_FILE, 4, 512));
    FileSlot(A, 3);
    FileSlot(B, 4);
    assert A[0] != B[0];
    TwoSlotsProper(DirAt(v, 2));
  }

  lemma TwoFilesWF(dirLimit: int, fileLimit: int)
    requires dirLimit > 0 && fileLimit > 0
    ensures WF(TwoFiles(dirLimit, fileLimit), TwoFilesShape)
  {
    var v, sh := TwoFiles(dirLimit, fileLimit), TwoFilesShape;
    TwoFilesGeometry(dirLimit, fileLimit);
    TwoFilesChains(v);
    RootSlots(v);
    FileSlot(A, 3);
    FileSlot(B, 4);
    var T := DirAt(v, 2);
    forall k | 0 <= k < |T| ensures SlotOK(v, sh, 2, k, T[k]) {}
    forall d | d in sh.objs && sh.objs[d].isDir ensures DirGood(v, sh, d) { assert d == 2; }
  }

  /** "/A/S/X" */
  const Through: Text := [SLASH, 65, SLASH, 83, SLASH, 88]

  lemma ThroughNames()
    ensures CString(Through) && LastSlash(Through, 6) == 4 && ParentNames(Through) == [A, S] && NameOf(Through) == X
  {
    LettersFindable();
    assert LastSlash(Through, 5) == 4;
    assert Through[..4] == [SLASH, 65] + [SLASH] + [83];
    assert [SLASH, 65] == [] + [SLASH] + [65];
    PathJoin([SLASH, 65], [83]);
    PathJoin([], [65]);
    assert PathNames([]) == [] && [] + [A] == [A] && [A] + [S] == [A, S];
    assert Through[5..] == [88];
  }

  /** The lookup goes from file A into its bytes and comes back with a directory. */
  lemma ThroughResolves(dirLimit: int, fileLimit: int)
    requires dirLimit > 0 && fileLimit > 0
    ensures var v := TwoFiles(dirLimit, fileLimit);
      && Resolve(v, [A]) == Some(Node(3, false, 512)) && Resolve(v, [A, S]) == Some(Node(3, true, 0))
      && !DirPath(v, [A, S])
  {
    var v := TwoFiles(dirLimit, fileLimit);
    TwoFilesGeometry(dirLimit, fileLimit);
    LettersFindable();
    RootSlots(v);
    FileSlot(A, 3);
    LookupFinds(DirAt(v, 2), A, 0);
    ResolveSnoc(v, [], A);
    assert [] + [A] == [A];
    OneCluster(v, 3);
    TwoSlotsHold(MakeEntry(S, ATTR_DIR, 3, 0), MakeEntry(X, ATTR_FILE, 4, 512));
    DirSlot(S, 3);
    assert ScanFor(DirAt(v, 3), S, 0) == Found(0);
    ResolveSnoc(v, [A], S);
    assert [A] + [S] == [A, S] && [A, S][..1] == [A];
  }

  lemma ThroughSearched(dirLimit: int, fileLimit: int)
    requires dirLimit > 0 && fileLimit > 0
    ensures SearchedIn(TwoFiles(dirLimit, fileLimit), [A, S])
  {
    ThroughResolves(dirLimit, fileLimit);
    SearchedTwo(TwoFiles(dirLimit, fileLimit), A, S);
  }

  lemma SearchedTwo(v: Vol, a: Bytes, b: Bytes)
    requires |v.data| == |v.fat| && InTable(v, v.g.root)
    requires Resolve(v, [a]).Some? ==> InTable(v, Resolve(v, [a]).value.cluster)
    ensures SearchedIn(v, [a, b])
  {
    assert [a, b][..1] == [a] && [a][..0] == [];
    assert SearchedIn(v, [a]);
  }

  /** The deletion takes the slot X that the bytes of file A spell. */
  lemma ThroughSearch(dirLimit: int, fileLimit: int)
    requires dirLimit > 0 && fileLimit > 0
    ensures var v := TwoFiles(dirLimit, fileLimit);
      DeleteSearch(v, 3, dirLimit, X) == Some((3, 1)) && SlotAt(v.data[3], 1) == MakeEntry(X, ATTR_FILE, 4, 512)
  {
    var v := TwoFiles(dirLimit, fileLimit);
    TwoSlotsHold(MakeEntry(S, ATTR_DIR, 3, 0), MakeEntry(X, ATTR_FILE, 4, 512));
    DirSlot(S, 3);
    FileSlot(X, 4);
    LettersFindable();
    var T := Slots(v.data[3]);
    assert S[0] != X[0];
    assert DeleteScan(T, X, 1) == 1;
    assert DeleteScan(T, X, 0) == 1;
  }

  /** After it, the cluster of file B is free although B is still there, and the bytes of file A are changed. */
  lemma ThroughDamage(v: Vol, v': Vol)
    requires v.g.dirLimit > 0 && v.g.fileLimit > 0 && v == TwoFiles(v.g.dirLimit, v.g.fileLimit)
    requires Geometry(v) && SlotAt(v.data[3], 1) == MakeEntry(X, ATTR_FILE, 4, 512) && v' == AfterDelete(v, 3, 1)
    ensures Geometry(v') && IsFree(v'.fat, 4) && Val(v'.fat[2]) >= EOC_MIN && v'.data[2] == Root && v'.g.root == 2
    ensures FileAt(v', 3) != FileAt(v, 3)
  {
    FileSlot(X, 4);
    var e := SlotAt(v.data[3], 1);
    assert IsChain(v.fat, [4]);
    FreedChain(v.fat, [4]);
    assert 4 in [4] && 2 !in [4] && 3 !in [4];
    FreedOne(v.fat);
    OneCluster(v, 3);
    OneCluster(v', 3);
    assert v.data[3][32] == e[0];
    assert v'.data[3][32] == DELETED;
  }

  lemma FreedOne(fat: seq<int>)
    requires fat == [EOC, EOC, EOC, EOC, EOC]
    ensures InRange(fat) && Freed(fat, 4) == SetEntry(fat, 4, 0) && InRange(SetEntry(fat, 4, 0))
  {
    FreeKeepsRange(fat, 4);
    assert Freed(SetEntry(fat, 4, 0), EOC) == SetEntry(fat, 4, 0);
  }

  /** No shape fits a volume on which B refers to a free cluster. */
  lemma NothingFits(v: Vol, sh: Shape)
    requires Geometry(v) && v.g.root == 2 && |v.fat| > 4 && Val(v.fat[2]) >= EOC_MIN && v.data[2] == Root
    requires IsFree(v.fat, 4)
    ensures !WF(v, sh)
  {
    if WF(v, sh) {
      RootSlots(v);
      FileSlot(B, 4);
      BTaken(v, sh);
    }
  }

  lemma BTaken(v: Vol, sh: Shape)
    requires WF(v, sh) && v.g.root == 2 && |DirAt(v, 2)| > 1 && DirAt(v, 2)[1] == MakeEntry(B, ATTR_FILE, 4, 512)
    ensures !IsFree(v.fat, 4)
  {
    FileSlot(B, 4);
    assert DirGood(v, sh, 2) && SlotOK(v, sh, 2, 1, DirAt(v, 2)[1]);
    assert ChainOK(v, sh, 4);
    ChainUsed(v.fat, sh.objs[4].chain, 0);
  }

  /**
   On a well-formed volume, deleting "/A/S/X" where A is a regular file: the parent is reached
   through A's bytes, the call returns 1, the cluster of file B is free although B still refers to
   it, A reads differently, and the volume is well formed no longer.
   */
  lemma DeleteThroughFile(dirLimit: int, fileLimit: int)
    requires dirLimit > 0 && fileLimit > 0
    ensures var v := TwoFiles(dirLimit, fileLimit);
      && WF(v, TwoFilesShape) && CString(Through) && Reaches(v, Through) && !ThroughDirs(v, Through)
      && var (r, v') := Deletion(v, Through);
         && r == 1 && Geometry(v') && IsFree(v'.fat, 4) && Resolve(v', [B]) == Some(Node(4, false, 512))
         && FileAt(v', 3) != FileAt(v, 3)
         && forall sh :: !WF(v', sh)
  {
    var v := TwoFiles(dirLimit, fileLimit);
    TwoFilesWF(dirLimit, fileLimit);
    ThroughNames();
    ThroughResolves(dirLimit, fileLimit);
    ThroughSearched(dirLimit, fileLimit);
    ThroughSearch(dirLimit, fileLimit);
    FileSlot(X, 4);
    var v' := AfterDelete(v, 3, 1);
    assert Deletion(v, Through) == (1, v');
    ThroughDamage(v, v');
    BStillThere(v');
    forall sh ensures !WF(v', sh) { NothingFits(v', sh); }
  }

  lemma BStillThere(v: Vol)
    requires Geometry(v) && v.g.root == 2 && |v.fat| > 2 && Val(v.fat[2]) >= EOC_MIN && v.data[2] == Root
    ensures Resolve(v, [B]) == Some(Node(4, false, 512))
  {
    RootSlots(v);
    FileSlot(B, 4);
    LettersFindable();
    LookupFinds(DirAt(v, 2), B, 1);
    ResolveSnoc(v, [], B);
    assert [] + [B] == [B];
  }

  // ----- A directory with the name of a volume label -----

  const ATTR_LABEL: int := 0x08

  /** A volume of three usable entries whose root directory holds a volume label A and then `second`. */
  function Labelled(dirLimit: int, fileLimit: int, last: int, second: Bytes, third: Bytes): Vol
    requires |second| == 32
  {
    Vol(Geo(1, 2, dirLimit, fileLimit), [EOC, EOC, EOC, last],
        [Zeros(512), Zeros(512), TwoSlots(MakeEntry(A, ATTR_LABEL, 0, 0), second), third])
  }

  const LabelledShape: Shape := Shape(map[2 := Obj(true, [2])], map[2 := (2, 0)], map[])

  /** "/A" */
  const Named: Text := [SLASH, 65]

  lemma LabelSlot()
    ensures var e := MakeEntry(A, ATTR_LABEL, 0, 0);
      Name(e) == A && e[0] == 65 && First(e) == 0 && Live(e) && IsLabel(e) && e[11] != ATTR_LFN
  {
    EntryRoundTrip(A, ATTR_LABEL, 0, 0);
  }

  lemma NamedNames()
    ensures CString(Named) && LastSlash(Named, 2) == 0 && ParentNames(Named) == [] && NameOf(Named) == A
    ensures PathNames(Named) == [A]
  {
    LettersFindable();
    assert LastSlash(Named, 1) == 0;
    assert Named[..0] == [] && Named[1..] == [65] && Named == [] + [SLASH] + [65];
    PathJoin([], [65]);
    assert PathNames([]) == [] && [] + [A] == [A];
  }

  lemma LabelledGeometry(dirLimit: int, fileLimit: int, last: int, second: Bytes, third: Bytes)
    requires dirLimit > 0 && fileLimit > 0 && (last == 0 || last == EOC) && |second| == 32 && |third| == 512
    ensures var v := Labelled(dirLimit, fileLimit, last, second, third);
      && Geometry(v) && |DirAt(v, 2)| == 16 && DirAt(v, 2)[0] == MakeEntry(A, ATTR_LABEL, 0, 0)
      && DirAt(v, 2)[1] == second
      && forall k :: 2 <= k < 16 ==> DirAt(v, 2)[k][0] == END_MARK
  {
    OneCluster(Labelled(dirLimit, fileLimit, last, second, third), 2);
    TwoSlotsHold(MakeEntry(A, ATTR_LABEL, 0, 0), second);
  }

  /** A well-formed volume on which "/A" is not found, although a volume label bears the name. */
  lemma LabelHidesName(dirLimit: int, fileLimit: int)
    requires dirLimit > 0 && fileLimit > 0
    ensures var v := BesideLabel(dirLimit, fileLimit);
      && WF(v, LabelledShape) && CString(Named) && InDir(v, Named) && ThroughDirs(v, Named) && DirOf(v, Named) == 2
      && Resolve(v, PathNames(Named)) == None && !NoSuchLabel(v, 2, NameOf(Named))
      && FreeCount(v.fat, 4) == 1 && !DirFull(v, 2)
  {
    LabelledWF(dirLimit, fileLimit);
    LabelOnly(BesideLabel(dirLimit, fileLimit));
    NamedNames();
    FourEntries([EOC, EOC, EOC, 0]);
  }

  /** A volume whose root holds a volume label A and nothing else. */
  function BesideLabel(dirLimit: int, fileLimit: int): Vol {
    Labelled(dirLimit, fileLimit, 0, Zeros(32), Zeros(512))
  }

  lemma LabelledRoot(dirLimit: int, fileLimit: int)
    requires dirLimit > 0 && fileLimit > 0
    ensures var v := BesideLabel(dirLimit, fileLimit);
      && Geometry(v) && |DirAt(v, 2)| == 16 && DirAt(v, 2)[0] == MakeEntry(A, ATTR_LABEL, 0, 0)
      && forall k :: 1 <= k < 16 ==> DirAt(v, 2)[k][0] == END_MARK
  {
    LabelledGeometry(dirLimit, fileLimit, 0, Zeros(32), Zeros(512));
  }

  lemma LabelledWF(dirLimit: int, fileLimit: int)
    requires dirLimit > 0 && fileLimit > 0
    ensures WF(BesideLabel(dirLimit, fileLimit), LabelledShape)
  {
    var v, sh := BesideLabel(dirLimit, fileLimit), LabelledShape;
    LabelledRoot(dirLimit, fileLimit);
    LabelSlot();
    var T := DirAt(v, 2);
    assert DirOK(T);
    forall k | 0 <= k < |T| ensures SlotOK(v, sh, 2, k, T[k]) {}
    forall f | f in sh.objs ensures ChainOK(v, sh, f) { assert f == 2; }
    forall d | d in sh.objs && sh.objs[d].isDir ensures DirGood(v, sh, d) { assert d == 2; }
  }

  /** A lookup passes over the label. */
  lemma LabelOnly(v: Vol)
    requires exists dirLimit, fileLimit :: dirLimit > 0 && fileLimit > 0 && v == BesideLabel(dirLimit, fileLimit)
    ensures |v.data| == |v.fat| && Resolve(v, [A]) == None && !NoSuchLabel(v, 2, A) && !DirFull(v, 2)
  {
    var dirLimit, fileLimit :| dirLimit > 0 && fileLimit > 0 && v == BesideLabel(dirLimit, fileLimit);
    LabelledRoot(dirLimit, fileLimit);
    LabelSlot();
    LettersFindable();
    var T := DirAt(v, 2);
    assert ScanFor(T, A, 1) == End;
    ResolveSnoc(v, [], A);
    assert [] + [A] == [A];
    assert Hit(T[0], A);
    assert !Live(T[1]);
  }

  lemma FourEntries(fat: seq<int>)
    requires fat == [EOC, EOC, EOC, 0]
    ensures FreeCount(fat, 4) == 1
  {
    assert FreeCount(fat, 3) == 0 by { NoneFree(fat, 3); }
  }

  /**
   With the directory "/A" made beside the label, deleting "/A" returns 1, takes the label
   away, and the directory is still found.
   */
  lemma DeleteTakesLabel(dirLimit: int, fileLimit: int, third: Bytes)
    requires dirLimit > 0 && fileLimit > 0 && |third| == 512
    ensures var v := Labelled(dirLimit, fileLimit, EOC, MakeEntry(A, ATTR_DIR, 3, 0), third);
      && Geometry(v) && Resolve(v, [A]) == Some(Node(3, true, 0))
      && var (r, v') := Deletion(v, Named);
         r == 1 && |v'.data| == |v'.fat| && Resolve(v', [A]) == Some(Node(3, true, 0))
  {
    var e := MakeEntry(A, ATTR_DIR, 3, 0);
    var v := Labelled(dirLimit, fileLimit, EOC, e, third);
    LabelledGeometry(dirLimit, fileLimit, EOC, e, third);
    LabelSlot();
    DirSlot(A, 3);
    NamedNames();
    LettersFindable();
    var T := DirAt(v, 2);
    SecondFound(v, T, e);
    TwoSlotsHold(MakeEntry(A, ATTR_LABEL, 0, 0), e);
    assert DeleteScan(Slots(v.data[2]), A, 0) == 0;
    assert DeleteSearch(v, 2, dirLimit, A) == Some((2, 0));
    var v' := AfterDelete(v, 2, 0);
    assert Deletion(v, Named) == (1, v');
    assert v'.fat == v.fat;
    SlotsAfterPut(v.data[2], 0, MakeEntry(A, ATTR_LABEL, 0, 0)[0 := DELETED]);
    OneCluster(v', 2);
    SecondFound(v', DirAt(v', 2), e);
  }

  /** A lookup passes over the first slot and finds the second. */
  lemma SecondFound(v: Vol, T: seq<Bytes>, e: Bytes)
    requires |v.data| == |v.fat| && v.g.root == 2 && T == DirAt(v, 2) && |T| == 16 && |e| == 32 && T[1] == e
    requires e == MakeEntry(A, ATTR_DIR, 3, 0) && T[0][0] != END_MARK && !Matches(T[0], A)
    ensures Resolve(v, [A]) == Some(Node(3, true, 0))
  {
    DirSlot(A, 3);
    LettersFindable();
    assert ScanFor(T, A, 1) == Found(1);
    assert ScanFor(T, A, 0) == Found(1);
    ResolveSnoc(v, [], A);
    assert [] + [A] == [A];
  }
}
