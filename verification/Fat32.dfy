/**
 The FAT32 driver of fs/fat/fat32.c: its in-memory state and its loops over sectors,
 slots and chains, proved against the volume functions of `FatVolume`.
 */
module Fat32 {
  import opened FatTable
  import opened FatDir
  import opened FatVolume
  import opened FatSteps
  import opened PathText
  import opened FatPaths
  import opened FatLoops
  import opened FatWalk
  import opened FatOutcomes
  import opened FatCalls

  class Driver {
    const g: Geo
    const sectorsPerFat: int
    const twoFats: bool
    ghost const top: seq<int>
    var fat: seq<int>
    var mirror: seq<int>
    var data: seq<Bytes>
    var hint: int
    var readOnly: bool

    /** fat32_mount on a volume whose boot sector gave these figures: the hint starts at sector 0. */
    constructor Mount(sectorsPerCluster: int, rootCluster: int, sectorsPerFat: int, twoFats: bool,
                      fat: seq<int>, mirror: seq<int>, data: seq<Bytes>, readOnly: bool)
      ensures V() == Vol(Geo(sectorsPerCluster, rootCluster, 1000, 2000000), fat, data) && HintOK(this.fat, hint)
      ensures TopKept(this.fat, top) && top == TopBits(fat)
      ensures this.mirror == mirror && this.sectorsPerFat == sectorsPerFat && this.twoFats == twoFats
      ensures this.readOnly == readOnly
    {
      this.g := Geo(sectorsPerCluster, rootCluster, 1000, 2000000);
      this.sectorsPerFat, this.twoFats, this.readOnly := sectorsPerFat, twoFats, readOnly;
      this.fat, this.mirror, this.data, this.hint := fat, mirror, data, 0;
      this.top := TopBits(fat);
      new;
      forall c | 0 <= c < |fat| ensures TopAt(fat, top, c) {}
    }

    ghost function V(): Vol
      reads this
    {
      Vol(g, fat, data)
    }

    /** The table part: sizes, the mirror, the allocation hint, and top bits as they were at the mount. */
    ghost predicate TableOK()
      reads this
    {
      && |fat| == sectorsPerFat * PER_SECTOR && |mirror| == |fat| && InRange(fat)
      && (twoFats ==> mirror == fat) && HintOK(fat, hint) && TopKept(fat, top)
    }

    /** The data part: clusters of the right size that hold bytes. */
    ghost predicate DataOK()
      reads this
    {
      Geometry(V()) && AllBytes(data)
    }

    ghost predicate Valid(sh: Shape)
      reads this
    {
      TableOK() && DataOK() && WF(V(), sh)
    }

    method WriteFatEntry(cluster: int, value: int)
      requires TableOK() && 0 <= cluster < |fat|
      modifies `fat, `mirror
      ensures fat == SetEntry(old(fat), cluster, value)
      ensures |mirror| == |fat| && (twoFats ==> mirror == fat) && TopKept(fat, top)
    {
      SetKeepsTop(fat, top, cluster, value);
      if cluster < 2 {
        return;
      }
      var sector := cluster * 4 / 512;
      assert sector * PER_SECTOR <= cluster < sector * PER_SECTOR + PER_SECTOR <= |fat| by {
        SectorOf(cluster, sectorsPerFat);
      }
      ghost var before := fat;
      fat := fat[cluster := SetWord(fat[cluster], value)];
      if twoFats {
        mirror := mirror[..sector * PER_SECTOR] + fat[sector * PER_SECTOR..sector * PER_SECTOR + PER_SECTOR]
          + mirror[sector * PER_SECTOR + PER_SECTOR..];
        MirrorSector(before, fat, cluster, sector * PER_SECTOR);
      }
    }

    method NextCluster(cluster: int) returns (next: int)
      requires cluster < |fat|
      ensures next == if cluster < 2 then EOC else Val(fat[cluster])
    {
      if cluster < 2 {
        return EOC;
      }
      next := Val(fat[cluster]);
    }

    /** fat32_find_free_cluster: with a sound hint this is the lowest free cluster of the volume. */
    method FindFreeCluster() returns (cluster: int)
      requires TableOK()
      modifies `hint
      ensures TableOK() && IsLowestFree(fat, cluster)
    {
      var sec := hint;
      while sec < sectorsPerFat
        invariant hint <= sec && HintOK(fat, hint)
        invariant forall d :: 0 <= d < sec * PER_SECTOR ==> !IsFree(fat, d)
        decreases sectorsPerFat - sec
      {
        var i := 0;
        while i < PER_SECTOR
          invariant 0 <= i <= PER_SECTOR
          invariant forall d :: 0 <= d < sec * PER_SECTOR + i ==> !IsFree(fat, d)
        {
          assert 0 <= sec * PER_SECTOR + i < |fat|;
          if !(sec == 0 && i < 2) && Val(fat[sec * PER_SECTOR + i]) == 0 {
            hint := sec;
            cluster := sec * PER_SECTOR + i;
            assert IsFree(fat, cluster);
            return;
          }
          i := i + 1;
        }
        sec := sec + 1;
      }
      cluster := 0;
      forall d ensures !IsFree(fat, d) {
        if 0 <= d < |fat| { assert d < sec * PER_SECTOR; }
      }
    }

    /** The freeing loop of fat32_delete_file; it ends on every table, cyclic ones included. */
    method FreeChain(start: int)
      requires TableOK() && (start < |fat| || start >= EOC_MIN)
      modifies `fat, `mirror, `hint
      ensures TableOK() && |fat| == |old(fat)| && fat == Freed(old(fat), start)
    {
      var c := start;
      while 2 <= c < EOC_MIN
        invariant TableOK() && |fat| == |old(fat)| && (c < |fat| || c >= EOC_MIN)
        invariant Freed(fat, c) == Freed(old(fat), start)
        decreases Used(fat, |fat|), if 2 <= c < |fat| then 1 else 0
      {
        UsedAfterFree(fat, c, |fat|);
        FreeKeepsRange(fat, c);
        HintAfterFree(fat, hint, c);
        var next := NextCluster(c);
        WriteFatEntry(c, 0);
        var sector := c * 4 / 512;
        if sector < hint {
          hint := sector;
        }
        c := next;
      }
    }

    // ----- Lookup and reading -----

    /** The cluster loop of fat32_get_cluster_for_path for one name. */
    method FindEntry(start: int, name: Bytes) returns (e: Option<Bytes>)
      requires DataOK() && |name| == 11 && IsBytes(name)
      ensures e == Entry(V(), start, name)
    {
      var c, limit := start, g.dirLimit;
      while 2 <= c < EOC_MIN && c < |fat| && limit > 0
        invariant limit >= 0 && LookFrom(V(), c, limit, name) == Entry(V(), start, name)
        decreases limit
      {
        var r := ScanCluster(data[c], g.spc, name);
        LookStep(V(), c, limit, name);
        if r.Found? {
          return Some(SlotAt(data[c], r.index));
        }
        if r.End? {
          return None;
        }
        var next := NextCluster(c);
        if next == c || next < 2 {
          return None;
        }
        c, limit := next, limit - 1;
      }
      LookEnd(V(), c, limit, name);
      e := None;
    }

    method GetClusterForPath(path: Text) returns (node: Option<Node>)
      requires DataOK() && CString(path)
      ensures node == Resolve(V(), PathNames(path))
    {
      var cur := Node(g.root, true, 0);
      var i := 0;
      ghost var all := PathNames(path);
      ghost var done: Names := [];
      while i < |path|
        invariant 0 <= i <= |path| && Resolve(V(), done) == Some(cur)
        invariant Splits(all, done, DosNames(Components(path, i)))
        decreases |path| - i
      {
        var end := TokenEnd(path, i);
        if end == i {
          i := i + 1;
        } else {
          var name := ToDosFileName(path[i..end]);
          TextBytes(path, i, end);
          TokenStep(path, i);
          SplitsShift(all, done, name, DosNames(Components(path, end)));
          ResolveSnoc(V(), done, name);
          var e := FindEntry(cur.cluster, name);
          if e.None? {
            ResolveStuck(V(), done + [name], DosNames(Components(path, end)));
            return None;
          }
          cur := Node(if First(e.value) == 0 then g.root else First(e.value), IsDirEntry(e.value), Size(e.value));
          done := done + [name];
          i := end;
        }
      }
      SplitsDone(all, done, DosNames(Components(path, i)));
      node := Some(cur);
    }

    method GetFileSize(path: Text) returns (size: int)
      requires DataOK() && CString(path)
      ensures size ==
        match Resolve(V(), PathNames(path)) case None => -1 case Some(n) => if n.isDir then -1 else AsInt(n.size)
    {
      var node := GetClusterForPath(path);
      if node.None? || node.value.isDir {
        return -1;
      }
      size := AsInt(node.value.size);
    }

    method ReadFile(path: Text) returns (r: int, out: Bytes)
      requires DataOK() && CString(path)
      ensures match Resolve(V(), PathNames(path))
        case None => r == -1
        case Some(n) =>
          if n.isDir then r == -1 else r == AsInt(n.size) && (n.size < 0x8000_0000 ==> out == ReadNode(V(), n))
    {
      var node := GetClusterForPath(path);
      if node.None? || node.value.isDir {
        return -1, [];
      }
      r := AsInt(node.value.size);
      out := ReadChain(g, fat, data, node.value.cluster, r);
    }

    // ----- Building a chain -----

    /**
     The allocation loop of fat32_write_file.  After every link step the clusters so far
     form a chain of clusters that were free, holding the bytes so far.
     */
    method BuildChain(bytes: Bytes, needed: int) returns (ok: bool, first: int, ghost ch: seq<int>)
      requires TableOK() && DataOK() && needed > 0 && IsBytes(bytes)
      modifies `fat, `mirror, `data, `hint
      ensures TableOK() && DataOK() && Built(old(V()), V(), bytes, needed, ok, ch) && (ok ==> first == ch[0])
    {
      ghost var fat0, data0, cb := fat, data, 512 * g.spc;
      ch, first := [], 0;
      var prev, i := 0, 0;
      BuildStart(fat, data, bytes, cb);
      while i < needed
        invariant 0 <= i <= needed && |ch| == i && TableOK() && DataOK() && Ends(ch, first, prev)
        invariant Building(fat0, data0, fat, data, ch, bytes, cb)
      {
        var c := GrowOne(prev, bytes, i * (512 * g.spc), fat0, data0, ch);
        if c == 0 {
          return false, first, ch;
        }
        if prev == 0 {
          first := c;
        }
        ch := ch + [c];
        prev := c;
        i := i + 1;
      }
      ok := true;
    }

    /** One round of the loop, or 0 on a full volume. */
    method GrowOne(prev: int, bytes: Bytes, off: int, ghost fat0: seq<int>, ghost data0: seq<Bytes>,
                   ghost ch: seq<int>) returns (c: int)
      requires TableOK() && DataOK() && Building(fat0, data0, fat, data, ch, bytes, 512 * g.spc)
      requires off == |ch| * (512 * g.spc) && prev == (if ch == [] then 0 else ch[|ch| - 1]) && IsBytes(bytes)
      modifies `fat, `mirror, `data, `hint
      ensures TableOK() && DataOK()
      ensures if c == 0 then Building(fat0, data0, fat, data, ch, bytes, 512 * g.spc) && forall d :: !IsFree(fat, d)
        else Building(fat0, data0, fat, data, ch + [c], bytes, 512 * g.spc)
      ensures c == 0 <==> FreeCount(old(fat), |old(fat)|) == 0
    {
      c := FindFreeCluster();
      NoneFree(fat, |fat|);
      if c == 0 {
        return;
      }
      BuildStep(fat0, data0, fat, data, ch, c, bytes, 512 * g.spc);
      AppendCluster(c, prev, bytes, off);
    }

    /** One round: mark the new cluster as the end, link it, fill it. */
    method AppendCluster(c: int, prev: int, bytes: Bytes, off: int)
      requires TableOK() && DataOK() && IsFree(fat, c) && 0 <= off && (prev == 0 || 2 <= prev < |fat|) && prev != c
      requires IsBytes(bytes)
      modifies `fat, `mirror, `data
      ensures TableOK() && DataOK()
      ensures var fat1 := SetEntry(old(fat), c, EOC); fat == if prev == 0 then fat1 else SetEntry(fat1, prev, c)
      ensures data == old(data)[c := PadTo(Drop(bytes, off), 512 * g.spc)]
    {
      TakeCluster(c);
      if prev != 0 {
        SetKeepsRange(fat, prev, c);
        HintAfterAlloc(fat, hint, prev, c);
        WriteFatEntry(prev, c);
      }
      PadBytes(bytes, off, 512 * g.spc);
      var image := ClusterImage(data[c], g.spc, bytes, off);
      data := data[c := image];
    }

    // ----- Changing a directory -----

    /** The cluster loop of fat32_delete_file. */
    method FindForDelete(d: int, name: Bytes) returns (hit: Option<(int, int)>)
      requires DataOK() && InTable(V(), d) && |name| == 11 && IsBytes(name)
      ensures hit == DeleteSearch(V(), d, g.dirLimit, name)
    {
      var c, limit := d, g.dirLimit;
      while 2 <= c < EOC_MIN && limit > 0
        invariant InTable(V(), c) && DeleteSearch(V(), c, limit, name) == DeleteSearch(V(), d, g.dirLimit, name)
        decreases limit
      {
        var k := ScanForDelete(data[c], g.spc, name);
        if k != -1 {
          return Some((c, k));
        }
        var next := NextCluster(c);
        if next == c || next < 2 {
          return None;
        }
        c, limit := next, limit - 1;
      }
      hit := None;
    }

    /** The cluster loop shared by fat32_write_file and fat32_mkdir: the first slot that is not taken. */
    method FindRoom(d: int) returns (hit: Option<(int, int)>)
      requires DataOK() && InTable(V(), d)
      ensures hit == RoomSearch(V(), d, g.dirLimit)
    {
      var c, limit := d, g.dirLimit;
      while 2 <= c < EOC_MIN && limit > 0
        invariant InTable(V(), c) && RoomSearch(V(), c, limit) == RoomSearch(V(), d, g.dirLimit)
        decreases limit
      {
        var k := ScanForRoom(data[c], g.spc);
        if k != -1 {
          return Some((c, k));
        }
        var next := NextCluster(c);
        if next == c || next < 2 {
          return None;
        }
        c, limit := next, limit - 1;
      }
      hit := None;
    }

    /** The loop with the entry it writes. */
    method Enter(d: int, e: Bytes) returns (ok: bool)
      requires TableOK() && DataOK() && InTable(V(), d) && |e| == 32 && IsBytes(e)
      modifies `data
      ensures TableOK() && DataOK() && (ok, V()) == Entered(old(V()), d, e)
    {
      EnteredGeometry(V(), d, e);
      var hit := FindRoom(d);
      ok := hit.Some?;
      if ok {
        EntryPutBytes(data[hit.value.0], hit.value.1, e);
        PlaceEntry(hit.value.0, hit.value.1, e);
      }
    }

    /** Writes an entry into a slot and, behind the last entry, renews the end mark. */
    method PlaceEntry(c: int, k: int, e: Bytes)
      requires DataOK() && 0 <= c < |data| && 0 <= k && 32 * k + 32 <= |data[c]| && |e| == 32
      modifies `data
      ensures data == old(data)[c := EntryPut(old(data)[c], k, e)]
    {
      var wasEnd := data[c][32 * k] == END_MARK;
      var b := PutSlot(data[c], k, e);
      if wasEnd && k + 1 < 16 * g.spc {
        b := b[32 * (k + 1) := END_MARK];
      }
      data := data[c := b];
    }

    // ----- The file operations -----

    /** Removes the entry in slot `k` of cluster `c` and frees what it refers to. */
    method Remove(c: int, k: int)
      requires TableOK() && DataOK() && 0 <= c < |data| && 0 <= k && 32 * k + 32 <= |data[c]|
      requires InTable(V(), First(SlotAt(data[c], k)))
      modifies `fat, `mirror, `data, `hint
      ensures TableOK() && DataOK() && V() == AfterDelete(old(V()), c, k)
    {
      var e := SlotAt(data[c], k);
      MarkBytes(data[c], k);
      data := data[c := PutSlot(data[c], k, e[0 := DELETED])];
      FreeChain(First(e));
    }

    /** The part of fat32_delete_file after the parent is found. */
    method DeleteFrom(d: int, name: Bytes) returns (found: bool)
      requires TableOK() && DataOK() && InTable(V(), d) && |name| == 11 && IsBytes(name)
      requires var hit := DeleteSearch(V(), d, g.dirLimit, name);
        hit.Some? ==> InTable(V(), First(SlotAt(data[hit.value.0], hit.value.1)))
      modifies `fat, `mirror, `data, `hint
      ensures TableOK() && DataOK() && (!found ==> hint == old(hint))
      ensures match DeleteSearch(old(V()), d, g.dirLimit, name)
        case None => !found && V() == old(V())
        case Some((c, k)) => found && V() == AfterDelete(old(V()), c, k)
    {
      var hit := FindForDelete(d, name);
      found := hit.Some?;
      if found {
        Remove(hit.value.0, hit.value.1);
      }
    }

    /** The path is cut at its last slash: the directory before it, and the name behind it in 8.3 form. */
    method ParentAndName(path: Text) returns (parent: Option<Node>, name: Bytes)
      requires DataOK() && CString(path) && LastSlash(path, |path|) >= 0
      ensures parent == Resolve(V(), ParentNames(path)) && name == NameOf(path) && IsBytes(name)
    {
      var slash := LastSlash(path, |path|);
      TextBytes(path, slash + 1, |path|);
      assert path[slash + 1..|path|] == path[slash + 1..];
      parent := GetClusterForPath(path[..slash]);
      name := ToDosFileName(path[slash + 1..]);
    }

    /**
     fat32_delete_file.  On every volume it does what `Deletion` says and keeps the table in order;
     where the volume is well formed and the parent is reached through directories, it stays well
     formed, the name is gone and all else is as before.
     */
    method DeleteFile(path: Text, ghost sh: Shape) returns (r: int, ghost sh': Shape)
      requires TableOK() && DataOK() && CString(path) && (readOnly || Reaches(V(), path))
      modifies `fat, `mirror, `data, `hint
      ensures TableOK() && DataOK()
      ensures (r, V()) == if readOnly then (-1, old(V())) else Deletion(old(V()), path)
      ensures r == -1 ==> hint == old(hint) && sh' == sh
      ensures WF(old(V()), sh) && ThroughDirs(old(V()), path) ==> Valid(sh')
      ensures WF(old(V()), sh) && !readOnly && InDir(old(V()), path) && ThroughDirs(old(V()), path) ==>
        && r == (if NameFresh(DirAt(old(V()), DirOf(old(V()), path)), NameOf(path)) then -1 else 1)
        && Cleared(old(V()), V(), sh', path) && Room(old(V()), sh, V(), path)
    {
      sh' := sh;
      ghost var v := V();
      r := DeletePath(path);
      if !readOnly && WF(v, sh) && ThroughDirs(v, path) {
        sh' := DeletionMeans(v, sh, path);
      }
    }

    /** The statements of fat32_delete_file. */
    method DeletePath(path: Text) returns (r: int)
      requires TableOK() && DataOK() && CString(path) && (readOnly || Reaches(V(), path))
      modifies `fat, `mirror, `data, `hint
      ensures TableOK() && DataOK() && (r == -1 ==> hint == old(hint))
      ensures (r, V()) == if readOnly then (-1, old(V())) else Deletion(old(V()), path)
    {
      r := -1;
      if readOnly {
        return;
      }
      if LastSlash(path, |path|) == -1 {
        return;
      }
      var parent, name := ParentAndName(path);
      if parent.None? || !parent.value.isDir {
        return;
      }
      var found := DeleteFrom(parent.value.cluster, name);
      if found {
        r := 1;
      }
    }

    /** The part of fat32_write_file after the old file is gone and the parent is found. */
    method StoreNew(d: int, name: Bytes, bytes: Bytes) returns (r: int, ghost built: Vol, ghost ch: seq<int>)
      requires TableOK() && DataOK() && InTable(V(), d) && |name| == 11 && IsBytes(name)
      requires |bytes| < 0x8000_0000 && IsBytes(bytes)
      modifies `fat, `mirror, `data, `hint
      ensures TableOK() && DataOK() && Storing(old(V()), built, V(), r, d, name, bytes, ch)
    {
      var needed := ClustersNeeded(|bytes|, 512 * g.spc);
      var ok, first;
      ok, first, ch := BuildChain(bytes, needed);
      built := V();
      if !ok {
        return -2, built, ch;
      }
      MakeEntryBytes(name, ATTR_FILE, first, |bytes|);
      ok := Enter(d, MakeEntry(name, ATTR_FILE, first, |bytes|));
      r := if ok then 1 else -1;
    }

    /** fat32_write_file after its call of fat32_delete_file. */
    method WriteCleared(path: Text, bytes: Bytes) returns (r: int, ghost built: Vol, ghost ch: seq<int>)
      requires TableOK() && DataOK() && CString(path) && |bytes| < 0x8000_0000 && IsBytes(bytes)
      requires ParentReached(V(), path)
      modifies `fat, `mirror, `data, `hint
      ensures TableOK() && DataOK()
      ensures
        if InDir(old(V()), path) then
          Storing(old(V()), built, V(), r, DirOf(old(V()), path), NameOf(path), bytes, ch)
        else r == -1 && V() == old(V())
    {
      r, built, ch := -1, V(), [];
      if LastSlash(path, |path|) == -1 {
        return;
      }
      var parent, name := ParentAndName(path);
      if parent.None? || !parent.value.isDir {
        return;
      }
      r, built, ch := StoreNew(parent.value.cluster, name, bytes);
    }

    /**
     fat32_write_file.  On every volume it takes the steps of `WriteSteps` and keeps the table in
     order; `built` is the volume before the entry is written, `ch` the new chain.  Where the volume
     is well formed and the parent is reached through directories, it stays well formed and `Written`
     says what became of the path.
     */
    method WriteFile(path: Text, bytes: Bytes, ghost sh: Shape)
      returns (r: int, ghost sh': Shape, ghost built: Vol, ghost ch: seq<int>)
      requires TableOK() && DataOK() && CString(path) && |bytes| < 0x8000_0000 && IsBytes(bytes)
      requires readOnly || WriteReaches(V(), path)
      modifies `fat, `mirror, `data, `hint
      ensures TableOK() && DataOK()
      ensures readOnly ==> r == -1 && V() == old(V())
      ensures !readOnly ==> WriteSteps(old(V()), built, V(), r, path, bytes, ch)
      ensures WF(old(V()), sh) && ThroughDirs(old(V()), path) ==> Valid(sh')
      ensures WF(old(V()), sh) && ThroughDirs(old(V()), path) && !readOnly ==>
        && Written(old(V()), V(), r, path, bytes)
        && (InDir(old(V()), path) ==> WriteCount(old(V()), sh, V(), r, path, |bytes|))
    {
      sh' := sh;
      ghost var v := V();
      r, built, ch := WritePath(path, bytes);
      if WF(v, sh) && ThroughDirs(v, path) && !readOnly {
        sh' := WriteMeans(v, sh, built, V(), r, path, bytes, ch);
      }
    }

    /** The statements of fat32_write_file. */
    method WritePath(path: Text, bytes: Bytes) returns (r: int, ghost built: Vol, ghost ch: seq<int>)
      requires TableOK() && DataOK() && CString(path) && |bytes| < 0x8000_0000 && IsBytes(bytes)
      requires readOnly || WriteReaches(V(), path)
      modifies `fat, `mirror, `data, `hint
      ensures TableOK() && DataOK()
      ensures readOnly ==> r == -1 && V() == old(V())
      ensures !readOnly ==> WriteSteps(old(V()), built, V(), r, path, bytes, ch)
    {
      r, built, ch := -1, V(), [];
      if readOnly {
        return;
      }
      var _ := DeletePath(path);
      r, built, ch := WriteCleared(path, bytes);
    }

    /** Allocates a cluster and makes it an empty directory with its two dot entries. */
    method PrepareDir(parent: int) returns (cluster: int)
      requires TableOK() && DataOK()
      modifies `fat, `mirror, `data, `hint
      ensures TableOK() && DataOK()
      ensures cluster == 0 <==> FreeCount(old(fat), |old(fat)|) == 0
      ensures if cluster == 0 then V() == old(V()) else Prepared(old(V()), V(), parent, cluster)
    {
      cluster := FindFreeCluster();
      NoneFree(fat, |fat|);
      if cluster == 0 {
        return;
      }
      var link := if parent == g.root then 0 else parent;
      var image := DirImage(cluster, link, g.spc);
      DirImageBytes(cluster, link, g.spc);
      TakeOne(V(), cluster, image);
      TakeCluster(cluster);
      data := data[cluster := image];
    }

    /** A free cluster becomes a chain of its own. */
    method TakeCluster(cluster: int)
      requires TableOK() && IsFree(fat, cluster)
      modifies `fat, `mirror
      ensures TableOK() && fat == SetEntry(old(fat), cluster, EOC)
    {
      SetKeepsRange(fat, cluster, EOC);
      HintAfterAlloc(fat, hint, cluster, EOC);
      WriteFatEntry(cluster, EOC);
    }

    /**
     fat32_mkdir.  On every volume it takes the steps of `Making` and keeps the table in order.  The
     lookup that guards it skips volume labels: where a label bears the name, the new entry is its
     twin and the volume is well formed no longer; everywhere else it stays so.
     */
    method MkDir(path: Text, ghost sh: Shape) returns (r: int, ghost sh': Shape, ghost built: Vol, ghost cluster: int)
      requires TableOK() && DataOK() && CString(path) && (readOnly || MakeReaches(V(), path))
      modifies `fat, `mirror, `data, `hint
      ensures TableOK() && DataOK()
      ensures r == -3 <==> !readOnly && Resolve(old(V()), PathNames(path)).Some?
      ensures r == -3 || readOnly || !InDir(old(V()), path) ==> V() == old(V()) && (r == -3 || r == -1) && sh' == sh
      ensures !readOnly && InDir(old(V()), path) && r != -3 ==>
        Making(old(V()), built, V(), r, DirOf(old(V()), path), NameOf(path), cluster)
      ensures WF(old(V()), sh) && ThroughDirs(old(V()), path) && !readOnly && InDir(old(V()), path) && r != -3 ==>
        MadeWell(old(V()), V(), sh', r, path)
    {
      sh' := sh;
      ghost var v := V();
      r, built, cluster := MakePath(path);
      if WF(v, sh) && ThroughDirs(v, path) && !readOnly && InDir(v, path) && r != -3 {
        sh' := MakeMeans(v, sh, built, V(), r, path, cluster);
      }
    }

    /** The statements of fat32_mkdir. */
    method MakePath(path: Text) returns (r: int, ghost built: Vol, ghost cluster: int)
      requires TableOK() && DataOK() && CString(path) && (readOnly || MakeReaches(V(), path))
      modifies `fat, `mirror, `data, `hint
      ensures TableOK() && DataOK()
      ensures r == -3 <==> !readOnly && Resolve(old(V()), PathNames(path)).Some?
      ensures r == -3 || readOnly || !InDir(old(V()), path) ==> V() == old(V()) && (r == -3 || r == -1)
      ensures !readOnly && InDir(old(V()), path) && r != -3 ==>
        Making(old(V()), built, V(), r, DirOf(old(V()), path), NameOf(path), cluster)
    {
      r, built, cluster := -1, V(), 0;
      if readOnly {
        return;
      }
      var node := GetClusterForPath(path);
      if node.Some? {
        r := -3;
        return;
      }
      if LastSlash(path, |path|) == -1 {
        return;
      }
      var parent, name := ParentAndName(path);
      if parent.None? || !parent.value.isDir {
        return;
      }
      r, built, cluster := MakeIn(parent.value.cluster, name);
    }

    /** The part of fat32_mkdir after the parent is found. */
    method MakeIn(d: int, name: Bytes) returns (r: int, ghost built: Vol, ghost cluster: int)
      requires TableOK() && DataOK() && InTable(V(), d) && |name| == 11 && IsBytes(name)
      modifies `fat, `mirror, `data, `hint
      ensures TableOK() && DataOK() && Making(old(V()), built, V(), r, d, name, cluster) && r != -3
    {
      var c := PrepareDir(d);
      built, cluster := V(), c;
      if c == 0 {
        return -2, built, cluster;
      }
      MakeEntryBytes(name, ATTR_DIR, c, 0);
      var ok := Enter(d, MakeEntry(name, ATTR_DIR, c, 0));
      r := if ok then 1 else -1;
    }
  }

  lemma SetKeepsRange(fat: seq<int>, c: int, v: int)
    requires InRange(fat) && 0 <= c < |fat| && (0 <= v < |fat| || v == EOC)
    ensures InRange(SetEntry(fat, c, v)) && Val(v) == v
  {}

  /** An unsigned size returned as an int. */
  function AsInt(size: int): (r: int)
    ensures 0 <= size < 0x1_0000_0000 ==>
      -0x8000_0000 <= r < 0x8000_0000 && (size - r) % 0x1_0000_0000 == 0
  {
    if size >= 0x8000_0000 then size - 0x1_0000_0000 else size
  }

  /** The 8.3 name of a piece of a C string is made of bytes. */
  lemma TextBytes(path: Text, i: int, j: int)
    requires CString(path) && 0 <= i <= j <= |path|
    ensures IsBytes(DosName(path[i..j]))
  {
    var t := path[i..j];
    forall k {:trigger IsByte(t, k)} | 0 <= k < |t| ensures IsByte(t, k) {}
    DosNameBytes(t);
  }

  lemma MarkBytes(b: Bytes, k: int)
    requires 0 <= k && 32 * k + 32 <= |b| && IsBytes(b)
    ensures IsBytes(PutSlot(b, k, SlotAt(b, k)[0 := DELETED]))
  {
    var e := SlotAt(b, k);
    var e' := e[0 := DELETED];
    SliceBytes(b, 32 * k, 32 * k + 32);
    forall i | 0 <= i < 32 ensures IsByte(e', i) { assert IsByte(e, i); }
    PutSlotBytes(b, k, e');
  }

  lemma SectorOf(cluster: int, sectors: int)
    requires 0 <= cluster < sectors * PER_SECTOR
    ensures var sector := cluster * 4 / 512;
      0 <= sector && sector * PER_SECTOR <= cluster && sector * PER_SECTOR + PER_SECTOR <= sectors * PER_SECTOR
  {}

  lemma MirrorSector(before: seq<int>, after: seq<int>, c: int, lo: int)
    requires |before| == |after| && 0 <= lo <= c < lo + PER_SECTOR <= |before|
    requires forall i :: 0 <= i < |before| && i != c ==> after[i] == before[i]
    ensures before[..lo] + after[lo..lo + PER_SECTOR] + before[lo + PER_SECTOR..] == after
  {}
}
