/**
 The three changes fat32.c makes to a well-formed volume: it removes an entry and
 frees its chain, it builds chains on free clusters, and it adds an entry.  Each
 keeps the volume well formed and leaves every other name alone.
 */
module FatSteps {
  import opened FatTable
  import opened FatDir
  import opened FatVolume

  /** Table and data agree on the clusters of object `f`. */
  ghost predicate Untouched(v: Vol, v': Vol, sh: Shape, f: int)
    requires f in sh.objs
  {
    && v'.g == v.g && |v'.fat| == |v.fat| && |v'.data| == |v.data| == |v.fat|
    && forall i :: 0 <= i < |sh.objs[f].chain| ==>
         var c := sh.objs[f].chain[i];
         0 <= c < |v.fat| && Val(v'.fat[c]) == Val(v.fat[c]) && v'.data[c] == v.data[c]
  }

  lemma ChainKept(v: Vol, v': Vol, sh: Shape, f: int)
    requires WF(v, sh) && f in sh.objs && Untouched(v, v', sh, f)
    ensures IsChain(v'.fat, sh.objs[f].chain)
    ensures forall limit :: limit >= 0 ==> Walk(v'.fat, f, limit) == Visible(sh.objs[f].chain, limit)
  {
    var ch := sh.objs[f].chain;
    assert ChainOK(v, sh, f);
    ChainFrame(v.fat, v'.fat, ch);
    forall i, j | 0 <= i < j < |ch| ensures ch[i] != ch[j] {
      if ch[i] == ch[j] { ChainsDisjoint(v, sh, f, i, f, j); }
    }
    forall limit | limit >= 0 ensures Walk(v'.fat, f, limit) == Visible(ch, limit) { WalkIsChain(v'.fat, ch, limit); }
  }

  lemma ObjectKept(v: Vol, v': Vol, sh: Shape, f: int)
    requires WF(v, sh) && f in sh.objs && Untouched(v, v', sh, f)
    ensures DirAt(v', f) == DirAt(v, f) && FileAt(v', f) == FileAt(v, f)
  {
    ChainKept(v, v', sh, f);
    WalkOf(v, sh, f, v.g.dirLimit);
    WalkOf(v, sh, f, v.g.fileLimit);
    DirSlotsFrame(v.data, v'.data, Visible(sh.objs[f].chain, v.g.dirLimit));
    DirSlotsFrame(v.data, v'.data, Visible(sh.objs[f].chain, v.g.fileLimit));
  }

  // ----- Building on free clusters -----

  /** Writes that touch no object's clusters, such as building a chain on free ones. */
  lemma BuildKeeps(v: Vol, v': Vol, sh: Shape, d: int, name: Bytes)
    requires WF(v, sh) && Geometry(v') && v'.g == v.g
    requires forall f :: f in sh.objs ==> Untouched(v, v', sh, f)
    ensures WF(v', sh) && Agrees(v, sh, v', d, name, 0)
  {
    forall f | f in sh.objs
      ensures ChainOK(v', sh, f) && DirAt(v', f) == DirAt(v, f) && FileAt(v', f) == FileAt(v, f)
    {
      assert ChainOK(v, sh, f);
      ChainKept(v, v', sh, f);
      ObjectKept(v, v', sh, f);
    }
    forall x | x in sh.objs && sh.objs[x].isDir ensures DirGood(v', sh, x) {
      assert DirGood(v, sh, x);
      var S := DirAt(v, x);
      forall k | 0 <= k < |S| ensures SlotOK(v', sh, x, k, S[k]) { assert SlotOK(v, sh, x, k, S[k]); }
    }
  }

  /** A cluster that was free belongs to no object, so writing it touches none. */
  lemma FreeUntouched(v: Vol, v': Vol, sh: Shape, f: int)
    requires WF(v, sh) && f in sh.objs && v'.g == v.g && |v'.fat| == |v.fat| && |v'.data| == |v.data|
    requires forall c :: 0 <= c < |v.fat| && !IsFree(v.fat, c) ==>
      Val(v'.fat[c]) == Val(v.fat[c]) && v'.data[c] == v.data[c]
    ensures Untouched(v, v', sh, f)
  {
    assert ChainOK(v, sh, f);
    forall i | 0 <= i < |sh.objs[f].chain| ensures !IsFree(v.fat, sh.objs[f].chain[i]) {
      if IsFree(v.fat, sh.objs[f].chain[i]) { FreeNotOwned(v, sh, sh.objs[f].chain[i], f, i); }
    }
  }

  // ----- Rewriting one slot -----

  /** Slot `k` of the cluster at position `ci` of directory `d`. */
  function SlotPos(v: Vol, ch: seq<int>, ci: int, k: int): int
    requires Within(ch, |v.data|) && 0 <= ci < |ch|
  {
    |DirSlots(v.data, ch[..ci])| + k
  }

  /** The data with that slot rewritten. */
  function PutAt(v: Vol, c: int, k: int, e: Bytes): seq<Bytes>
    requires 0 <= c < |v.data| && 0 <= k && 32 * k + 32 <= |v.data[c]| && |e| == 32
  {
    v.data[c := PutSlot(v.data[c], k, e)]
  }

  lemma VisibleDistinct(v: Vol, sh: Shape, d: int, ci: int)
    requires WF(v, sh) && d in sh.objs && 0 <= ci < |Visible(sh.objs[d].chain, v.g.dirLimit)|
    ensures var vis := Visible(sh.objs[d].chain, v.g.dirLimit);
      forall i :: 0 <= i < |vis| && i != ci ==> vis[i] != vis[ci]
  {
    var vis := Visible(sh.objs[d].chain, v.g.dirLimit);
    forall i | 0 <= i < |vis| && i != ci ensures vis[i] != vis[ci] {
      if vis[i] == vis[ci] { ChainsDisjoint(v, sh, d, i, d, ci); }
    }
  }

  lemma SlotRewritten(v: Vol, sh: Shape, d: int, ci: int, k: int, e: Bytes)
    requires WF(v, sh) && d in sh.objs && |e| == 32
    requires var vis := Visible(sh.objs[d].chain, v.g.dirLimit);
      0 <= ci < |vis| && 0 <= k && 0 <= vis[ci] < |v.data| && 32 * k + 32 <= |v.data[vis[ci]]|
    ensures var vis := Visible(sh.objs[d].chain, v.g.dirLimit);
      && Within(vis, |v.data|) && Walk(v.fat, d, v.g.dirLimit) == vis
      && 0 <= SlotPos(v, vis, ci, k) < |DirAt(v, d)|
      && DirAt(v, d)[SlotPos(v, vis, ci, k)] == SlotAt(v.data[vis[ci]], k)
      && DirSlots(PutAt(v, vis[ci], k, e), vis) == DirAt(v, d)[SlotPos(v, vis, ci, k) := e]
  {
    var vis := Visible(sh.objs[d].chain, v.g.dirLimit);
    VisibleWalk(v, sh, d);
    VisibleDistinct(v, sh, d, ci);
    DirSlotsAfterPut(v.data, vis, ci, k, e);
  }

  lemma VisibleWalk(v: Vol, sh: Shape, d: int)
    requires WF(v, sh) && d in sh.objs
    ensures var vis := Visible(sh.objs[d].chain, v.g.dirLimit);
      Walk(v.fat, d, v.g.dirLimit) == vis && Within(vis, |v.data|) && DirAt(v, d) == DirSlots(v.data, vis)
  {
    WalkOf(v, sh, d, v.g.dirLimit);
  }

  /** Objects keep their chains apart from the rewritten directory `d`, whose slots become `S'`. */
  ghost predicate OneDirChanged(v: Vol, v': Vol, sh: Shape, keep: set<int>, d: int, S': seq<Bytes>)
    requires |v.data| == |v.fat|
  {
    && Geometry(v') && v'.g == v.g
    && keep <= sh.objs.Keys && d in keep && sh.objs[d].isDir
    && (forall f {:trigger f in keep} :: f in keep && f != d ==> Untouched(v, v', sh, f))
    && IsChain(v'.fat, sh.objs[d].chain) && DirAt(v', d) == S'
  }

  /** Lookups of other names, and all other objects, are as before. */
  lemma OneDirAgrees(v: Vol, v': Vol, sh: Shape, keep: set<int>, d: int, k: int, e: Bytes, name: Bytes, gone: int)
    requires WF(v, sh) && 0 <= k < |DirAt(v, d)| && |e| == 32
    requires OneDirChanged(v, v', sh, keep, d, DirAt(v, d)[k := e]) && DirOK(DirAt(v, d)[k := e])
    requires keep >= sh.objs.Keys - {gone}
    requires gone != 0 ==> Entry(v, d, name).Some? && First(Entry(v, d, name).value) == gone
    requires forall n :: n != name ==> !Matches(DirAt(v, d)[k], n) && !Matches(e, n)
    ensures Agrees(v, sh, v', d, name, gone)
  {
    assert DirGood(v, sh, d);
    forall f | f in sh.objs && f != gone && f != d
      ensures DirAt(v', f) == DirAt(v, f) && FileAt(v', f) == FileAt(v, f)
    {
      assert f in keep;
      ObjectKept(v, v', sh, f);
    }
    forall n | n != name ensures Entry(v', d, n) == Entry(v, d, n) { LookupAfterUpdate(DirAt(v, d), k, e, n); }
  }

  // ----- Removing an entry -----

  ghost function AfterDelete(v: Vol, c: int, k: int): Vol
    requires InRange(v.fat) && 0 <= c < |v.data| && 0 <= k && 32 * k + 32 <= |v.data[c]|
  {
    var e := SlotAt(v.data[c], k);
    v.(data := PutAt(v, c, k, e[0 := DELETED]), fat := Freed(v.fat, First(e)))
  }

  ghost predicate AtSlot(v: Vol, sh: Shape, d: int, ci: int, k: int, pos: int)
    requires |v.data| == |v.fat|
  {
    && d in sh.objs && sh.objs[d].isDir
    && var vis := Visible(sh.objs[d].chain, v.g.dirLimit);
       && 0 <= ci < |vis| && Within(vis, |v.data|) && 0 <= k && 32 * k + 32 <= |v.data[vis[ci]]|
       && pos == SlotPos(v, vis, ci, k) && 0 <= pos < |DirAt(v, d)|
       && DirAt(v, d)[pos] == SlotAt(v.data[vis[ci]], k)
  }

  /** The chain an entry refers to is freed, and nothing else in the table changes. */
  lemma DeleteFat(v: Vol, sh: Shape, d: int, pos: int)
    requires WF(v, sh) && d in sh.objs && sh.objs[d].isDir && 0 <= pos < |DirAt(v, d)| && IsRef(DirAt(v, d)[pos])
    ensures var gone := First(DirAt(v, d)[pos]);
      var fat' := Freed(v.fat, gone);
      && |fat'| == |v.fat| && InRange(fat')
      && (gone != 0 ==> gone in sh.objs && gone != v.g.root && sh.parent.Keys >= {gone} && sh.parent[gone] == (d, pos))
      && forall c :: 0 <= c < |v.fat| && (gone == 0 || c !in sh.objs[gone].chain) ==> fat'[c] == v.fat[c]
    ensures var gone := First(DirAt(v, d)[pos]); gone != 0 ==>
      forall c :: c in sh.objs[gone].chain ==> 2 <= c < |v.fat| && IsFree(Freed(v.fat, gone), c)
  {
    assert DirGood(v, sh, d) && SlotOK(v, sh, d, pos, DirAt(v, d)[pos]);
    var gone := First(DirAt(v, d)[pos]);
    if gone != 0 {
      assert ChainOK(v, sh, gone);
      var ch := sh.objs[gone].chain;
      forall i, j | 0 <= i < j < |ch| ensures ch[i] != ch[j] {
        if ch[i] == ch[j] { ChainsDisjoint(v, sh, gone, i, gone, j); }
      }
      FreedChain(v.fat, ch);
    }
  }

  /** Chains of other objects meet neither the freed chain nor the rewritten cluster. */
  lemma DeleteUntouched(v: Vol, sh: Shape, d: int, ci: int, k: int, pos: int, f: int)
    requires WF(v, sh) && AtSlot(v, sh, d, ci, k, pos) && IsRef(DirAt(v, d)[pos])
    requires f in sh.objs && f != First(DirAt(v, d)[pos])
    ensures var c := Visible(sh.objs[d].chain, v.g.dirLimit)[ci];
      && |AfterDelete(v, c, k).fat| == |v.fat|
      && (f != d ==> Untouched(v, AfterDelete(v, c, k), sh, f))
      && forall i :: 0 <= i < |sh.objs[f].chain| ==>
           0 <= sh.objs[f].chain[i] < |v.fat|
             && Val(AfterDelete(v, c, k).fat[sh.objs[f].chain[i]]) == Val(v.fat[sh.objs[f].chain[i]])
  {
    var c := Visible(sh.objs[d].chain, v.g.dirLimit)[ci];
    var gone := First(DirAt(v, d)[pos]);
    DeleteFat(v, sh, d, pos);
    assert ChainOK(v, sh, f);
    forall i | 0 <= i < |sh.objs[f].chain|
      ensures gone != 0 ==> sh.objs[f].chain[i] !in sh.objs[gone].chain
      ensures f != d ==> sh.objs[f].chain[i] != c
    {
      var x := sh.objs[f].chain[i];
      if gone != 0 && x in sh.objs[gone].chain {
        var j :| 0 <= j < |sh.objs[gone].chain| && sh.objs[gone].chain[j] == x;
        ChainsDisjoint(v, sh, f, i, gone, j);
      }
      if x == c { ChainsDisjoint(v, sh, f, i, d, ci); }
    }
  }

  lemma DeleteChanges(v: Vol, sh: Shape, d: int, ci: int, k: int, pos: int)
    requires WF(v, sh) && AtSlot(v, sh, d, ci, k, pos) && IsRef(DirAt(v, d)[pos]) && First(DirAt(v, d)[pos]) != d
    ensures var c := Visible(sh.objs[d].chain, v.g.dirLimit)[ci];
      OneDirChanged(v, AfterDelete(v, c, k), sh, sh.objs.Keys - {First(DirAt(v, d)[pos])}, d,
                    DirAt(v, d)[pos := DirAt(v, d)[pos][0 := DELETED]])
  {
    var vis := Visible(sh.objs[d].chain, v.g.dirLimit);
    var c := vis[ci];
    var v' := AfterDelete(v, c, k);
    var keep := sh.objs.Keys - {First(DirAt(v, d)[pos])};
    DeleteFat(v, sh, d, pos);
    forall f {:trigger f in keep} | f in keep && f != d ensures Untouched(v, v', sh, f) {
      DeleteUntouched(v, sh, d, ci, k, pos, f);
    }
    DeleteUntouched(v, sh, d, ci, k, pos, d);
    SlotRewritten(v, sh, d, ci, k, DirAt(v, d)[pos][0 := DELETED]);
    assert ChainOK(v, sh, d);
    ChainFrame(v.fat, v'.fat, sh.objs[d].chain);
    DirWalk(v, sh, d, v'.fat);
  }

  lemma DirWalk(v: Vol, sh: Shape, d: int, fat': seq<int>)
    requires WF(v, sh) && d in sh.objs && IsChain(fat', sh.objs[d].chain) && |fat'| == |v.fat|
    ensures Walk(fat', d, v.g.dirLimit) == Visible(sh.objs[d].chain, v.g.dirLimit)
  {
    assert ChainOK(v, sh, d);
    var ch := sh.objs[d].chain;
    forall i, j | 0 <= i < j < |ch| ensures ch[i] != ch[j] {
      if ch[i] == ch[j] { ChainsDisjoint(v, sh, d, i, d, j); }
    }
    WalkIsChain(fat', ch, v.g.dirLimit);
  }

  function ShapeWithout(sh: Shape, gone: int): Shape {
    sh.(objs := sh.objs - {gone})
  }

  /** Slots other than the deleted one never refer to the object that goes. */
  lemma SlotsSurvive(v: Vol, v': Vol, sh: Shape, d: int, pos: int, x: int, j: int)
    requires WF(v, sh) && v'.g == v.g
    requires d in sh.objs && sh.objs[d].isDir && 0 <= pos < |DirAt(v, d)| && IsRef(DirAt(v, d)[pos])
    requires x in sh.objs && sh.objs[x].isDir && 0 <= j < |DirAt(v, x)| && (x, j) != (d, pos)
    ensures SlotOK(v', ShapeWithout(sh, First(DirAt(v, d)[pos])), x, j, DirAt(v, x)[j])
  {
    assert DirGood(v, sh, x) && SlotOK(v, sh, x, j, DirAt(v, x)[j]);
    assert DirGood(v, sh, d) && SlotOK(v, sh, d, pos, DirAt(v, d)[pos]);
  }

  lemma ChainsKept(v: Vol, v': Vol, sh: Shape, gone: int, d: int, S': seq<Bytes>)
    requires WF(v, sh) && OneDirChanged(v, v', sh, sh.objs.Keys - {gone}, d, S')
    ensures forall f :: f in ShapeWithout(sh, gone).objs ==> ChainOK(v', ShapeWithout(sh, gone), f)
  {
    forall f | f in ShapeWithout(sh, gone).objs ensures ChainOK(v', ShapeWithout(sh, gone), f) {
      assert ChainOK(v, sh, f) && f in sh.objs.Keys - {gone};
      if f != d { ChainKept(v, v', sh, f); }
    }
  }

  lemma DeleteWF(v: Vol, sh: Shape, d: int, ci: int, k: int, pos: int)
    requires WF(v, sh) && AtSlot(v, sh, d, ci, k, pos) && IsRef(DirAt(v, d)[pos]) && First(DirAt(v, d)[pos]) != d
    ensures var c := Visible(sh.objs[d].chain, v.g.dirLimit)[ci];
      WF(AfterDelete(v, c, k), ShapeWithout(sh, First(DirAt(v, d)[pos])))
  {
    var v' := AfterDelete(v, Visible(sh.objs[d].chain, v.g.dirLimit)[ci], k);
    var S := DirAt(v, d);
    var gone := First(S[pos]);
    var sh' := ShapeWithout(sh, gone);
    DeleteChanges(v, sh, d, ci, k, pos);
    DeleteFat(v, sh, d, pos);
    assert DirGood(v, sh, d) && ChainOK(v, sh, v.g.root);
    DirOKAfterDelete(S, pos);
    ChainsKept(v, v', sh, gone, d, S[pos := S[pos][0 := DELETED]]);
    forall x | x in sh'.objs && sh'.objs[x].isDir ensures DirGood(v', sh', x) {
      DirsSurvive(v, v', sh, d, pos, x);
    }
  }

  /** The directories that stay are as before, but for the marked slot. */
  lemma DirsSurvive(v: Vol, v': Vol, sh: Shape, d: int, pos: int, x: int)
    requires WF(v, sh) && d in sh.objs && sh.objs[d].isDir && 0 <= pos < |DirAt(v, d)| && IsRef(DirAt(v, d)[pos])
    requires var S := DirAt(v, d);
      && var S' := S[pos := S[pos][0 := DELETED]];
         DirOK(S') && OneDirChanged(v, v', sh, sh.objs.Keys - {First(S[pos])}, d, S')
    requires x in sh.objs && x != First(DirAt(v, d)[pos]) && sh.objs[x].isDir
    ensures DirGood(v', ShapeWithout(sh, First(DirAt(v, d)[pos])), x)
  {
    var gone := First(DirAt(v, d)[pos]);
    assert DirGood(v, sh, x) && x in sh.objs.Keys - {gone};
    if x != d { ObjectKept(v, v', sh, x); }
    var T := DirAt(v', x);
    forall j | 0 <= j < |T| ensures SlotOK(v', ShapeWithout(sh, gone), x, j, T[j]) {
      if (x, j) != (d, pos) { SlotsSurvive(v, v', sh, d, pos, x, j); }
    }
  }

  /** Deleting an entry keeps the volume well formed and touches no other name. */
  lemma DeleteStep(v: Vol, sh: Shape, p: Names, ci: int, k: int, pos: int)
    requires WF(v, sh) && DirPath(v, p) && Proper(p) && Resolve(v, p).Some?
    requires var d := Resolve(v, p).value.cluster;
      AtSlot(v, sh, d, ci, k, pos) && IsRef(DirAt(v, d)[pos]) && Findable(Name(DirAt(v, d)[pos]))
    ensures var d := Resolve(v, p).value.cluster;
      var c := Visible(sh.objs[d].chain, v.g.dirLimit)[ci];
      var gone := First(DirAt(v, d)[pos]);
      && gone != d && WF(AfterDelete(v, c, k), ShapeWithout(sh, gone))
      && Agrees(v, sh, AfterDelete(v, c, k), d, Name(DirAt(v, d)[pos]), gone)
      && DirAt(AfterDelete(v, c, k), d) == DirAt(v, d)[pos := DirAt(v, d)[pos][0 := DELETED]]
  {
    var d := Resolve(v, p).value.cluster;
    var S := DirAt(v, d);
    var gone := First(S[pos]);
    NotOwnChild(v, sh, p, pos);
    DeleteChanges(v, sh, d, ci, k, pos);
    DeleteWF(v, sh, d, ci, k, pos);
    assert DirGood(v, sh, d) && SlotOK(v, sh, d, pos, S[pos]);
    DirOKAfterDelete(S, pos);
    if gone != 0 { LookupFinds(S, Name(S[pos]), pos); }
    OneDirAgrees(v, AfterDelete(v, Visible(sh.objs[d].chain, v.g.dirLimit)[ci], k), sh, sh.objs.Keys - {gone}, d, pos,
                 S[pos][0 := DELETED], Name(S[pos]), gone);
  }

  // ----- Adding an entry -----

  function PlaceAll(place: map<int, (int, int)>, f: int, ch: seq<int>, n: int): map<int, (int, int)>
    requires 0 <= n <= |ch|
  {
    if n == 0 then place else PlaceAll(place, f, ch, n - 1)[ch[n - 1] := (f, n - 1)]
  }

  lemma {:induction false} PlaceAllAt(place: map<int, (int, int)>, f: int, ch: seq<int>, n: int)
    requires 0 <= n <= |ch| && forall i, j :: 0 <= i < j < |ch| ==> ch[i] != ch[j]
    ensures var r := PlaceAll(place, f, ch, n);
      && (forall i :: 0 <= i < n ==> ch[i] in r && r[ch[i]] == (f, i))
      && forall c :: c in place && c !in ch ==> c in r && r[c] == place[c]
  {
    if n > 0 { PlaceAllAt(place, f, ch, n - 1); }
  }

  function ShapeWith(sh: Shape, isDir: bool, ch: seq<int>, d: int, pos: int): Shape
    requires |ch| > 0
  {
    Shape(sh.objs[ch[0] := Obj(isDir, ch)], PlaceAll(sh.place, ch[0], ch, |ch|), sh.parent[ch[0] := (d, pos)])
  }

  /** A chain made of clusters that were free before. */
  ghost predicate NewChain(v: Vol, v1: Vol, ch: seq<int>) {
    && IsChain(v1.fat, ch)
    && (forall i :: 0 <= i < |ch| ==> IsFree(v.fat, ch[i]))
    && (forall i, j :: 0 <= i < j < |ch| ==> ch[i] != ch[j])
  }

  /** The new object is fit for the entry: enough clusters for a file, no references yet in a directory. */
  ghost predicate NewObject(v1: Vol, isDir: bool, ch: seq<int>, size: int)
    requires Within(ch, |v1.data|)
  {
    if isDir then
      var S := DirSlots(v1.data, Visible(ch, v1.g.dirLimit));
      DirOK(S) && forall k :: 0 <= k < |S| ==> !IsRef(S[k])
    else 0 <= size <= |ch| * ClusterBytes(v1)
  }

  function NewEntry(name: Bytes, isDir: bool, ch: seq<int>, size: int): (e: Bytes)
    requires |name| == 11 && |ch| > 0
    ensures |e| == 32
  {
    MakeEntry(name, if isDir then ATTR_DIR else ATTR_FILE, ch[0], size)
  }

  lemma NewNotOwned(v: Vol, sh: Shape, v1: Vol, ch: seq<int>, f: int, i: int)
    requires WF(v, sh) && NewChain(v, v1, ch) && f in sh.objs && 0 <= i < |sh.objs[f].chain|
    ensures sh.objs[f].chain[i] !in ch && f !in ch
  {
    assert ChainOK(v, sh, f);
    forall j | 0 <= j < |ch| ensures ch[j] != sh.objs[f].chain[i] && ch[j] != f {
      FreeNotOwned(v, sh, ch[j], f, i);
      FreeNotOwned(v, sh, ch[j], f, 0);
    }
  }

  lemma SlotWith(v: Vol, v2: Vol, sh: Shape, v1: Vol, isDir: bool, ch: seq<int>, d: int, pos: int, x: int, j: int,
                 e: Bytes)
    requires WF(v, sh) && NewChain(v, v1, ch) && v2.g == v.g && |e| == 32 && SlotOK(v, sh, x, j, e)
    ensures SlotOK(v2, ShapeWith(sh, isDir, ch, d, pos), x, j, e)
  {
    if IsRef(e) && First(e) != 0 {
      assert ChainOK(v, sh, First(e));
      NewNotOwned(v, sh, v1, ch, First(e), 0);
      assert ch[0] in ch;
    }
  }

  lemma NewSlotOK(v2: Vol, sh: Shape, name: Bytes, isDir: bool, ch: seq<int>, size: int, d: int, pos: int)
    requires |name| == 11 && IsChain(v2.fat, ch) && |v2.fat| < EOC_MIN && 0 <= size < 0x1_0000_0000
    requires ch[0] != v2.g.root
    requires !isDir ==> size <= |ch| * ClusterBytes(v2)
    ensures SlotOK(v2, ShapeWith(sh, isDir, ch, d, pos), d, pos, NewEntry(name, isDir, ch, size))
    ensures var e := NewEntry(name, isDir, ch, size);
      Name(e) == name && e[0] == name[0] && First(e) == ch[0] && Size(e) == size && IsDirEntry(e) == isDir
        && !IsLabel(e) && e[11] != ATTR_LFN
  {
    assert 0 <= ch[0] < |v2.fat|;
    NewEntryFields(name, isDir, ch, size);
  }

  lemma NewEntryFields(name: Bytes, isDir: bool, ch: seq<int>, size: int)
    requires |name| == 11 && |ch| > 0 && 0 <= ch[0] < 0x1_0000_0000 && 0 <= size < 0x1_0000_0000
    ensures var e := NewEntry(name, isDir, ch, size);
      Name(e) == name && e[0] == name[0] && First(e) == ch[0] && Size(e) == size && IsDirEntry(e) == isDir
        && !IsLabel(e) && e[11] != ATTR_LFN
  {
    EntryRoundTrip(name, if isDir then ATTR_DIR else ATTR_FILE, ch[0], size);
  }

  lemma ChainsWith(v1: Vol, v2: Vol, sh: Shape, v: Vol, isDir: bool, ch: seq<int>, d: int, pos: int)
    requires WF(v, sh) && WF(v1, sh) && NewChain(v, v1, ch) && v2.fat == v1.fat
    ensures forall f :: f in ShapeWith(sh, isDir, ch, d, pos).objs ==> ChainOK(v2, ShapeWith(sh, isDir, ch, d, pos), f)
  {
    var sh' := ShapeWith(sh, isDir, ch, d, pos);
    PlaceAllAt(sh.place, ch[0], ch, |ch|);
    forall f | f in sh'.objs ensures ChainOK(v2, sh', f) {
      if f != ch[0] {
        assert ChainOK(v1, sh, f);
        forall i | 0 <= i < |sh.objs[f].chain| ensures sh.objs[f].chain[i] !in ch { NewNotOwned(v, sh, v1, ch, f, i); }
      }
    }
  }

  /** Clusters other than the rewritten one are untouched. */
  lemma PutUntouched(v1: Vol, sh: Shape, d: int, ci: int, k: int, e: Bytes, f: int)
    requires WF(v1, sh) && d in sh.objs && f in sh.objs && f != d && |e| == 32
    requires var vis := Visible(sh.objs[d].chain, v1.g.dirLimit);
      0 <= ci < |vis| && 0 <= k && 0 <= vis[ci] < |v1.data| && 32 * k + 32 <= |v1.data[vis[ci]]|
    ensures Untouched(v1, v1.(data := PutAt(v1, Visible(sh.objs[d].chain, v1.g.dirLimit)[ci], k, e)), sh, f)
  {
    assert ChainOK(v1, sh, f);
    forall i | 0 <= i < |sh.objs[f].chain| ensures sh.objs[f].chain[i] != Visible(sh.objs[d].chain, v1.g.dirLimit)[ci] {
      if sh.objs[f].chain[i] == sh.objs[d].chain[ci] { ChainsDisjoint(v1, sh, f, i, d, ci); }
    }
  }

  lemma PutChanges(v1: Vol, sh: Shape, d: int, ci: int, k: int, pos: int, e: Bytes)
    requires WF(v1, sh) && AtSlot(v1, sh, d, ci, k, pos) && |e| == 32
    ensures var c := Visible(sh.objs[d].chain, v1.g.dirLimit)[ci];
      OneDirChanged(v1, v1.(data := PutAt(v1, c, k, e)), sh, sh.objs.Keys, d, DirAt(v1, d)[pos := e])
  {
    var v2 := v1.(data := PutAt(v1, Visible(sh.objs[d].chain, v1.g.dirLimit)[ci], k, e));
    forall f {:trigger f in sh.objs.Keys} | f in sh.objs.Keys && f != d ensures Untouched(v1, v2, sh, f) {
      PutUntouched(v1, sh, d, ci, k, e, f);
    }
    PutSlots(v1, sh, d, ci, k, pos, e);
  }

  /** The rewritten directory itself. */
  lemma PutSlots(v1: Vol, sh: Shape, d: int, ci: int, k: int, pos: int, e: Bytes)
    requires WF(v1, sh) && AtSlot(v1, sh, d, ci, k, pos) && |e| == 32
    ensures var v2 := v1.(data := PutAt(v1, Visible(sh.objs[d].chain, v1.g.dirLimit)[ci], k, e));
      Geometry(v2) && IsChain(v2.fat, sh.objs[d].chain) && DirAt(v2, d) == DirAt(v1, d)[pos := e]
  {
    SlotRewritten(v1, sh, d, ci, k, e);
    assert ChainOK(v1, sh, d);
  }

  lemma NewDirGood(v: Vol, v1: Vol, sh: Shape, ch: seq<int>, d: int, ci: int, k: int, pos: int, e: Bytes, sh': Shape)
    requires WF(v, sh) && WF(v1, sh) && v1.g == v.g && NewChain(v, v1, ch) && AtSlot(v1, sh, d, ci, k, pos) && |e| == 32
    ensures var v2 := v1.(data := PutAt(v1, Visible(sh.objs[d].chain, v.g.dirLimit)[ci], k, e));
      && DirAt(v2, ch[0]) == DirSlots(v1.data, Visible(ch, v.g.dirLimit))
      && FileAt(v2, ch[0]) == Contents(v1.data, Visible(ch, v.g.fileLimit))
    ensures NewObject(v1, true, ch, 0) ==>
      DirGood(v1.(data := PutAt(v1, Visible(sh.objs[d].chain, v.g.dirLimit)[ci], k, e)), sh', ch[0])
  {
    var c := Visible(sh.objs[d].chain, v.g.dirLimit)[ci];
    var v2 := v1.(data := PutAt(v1, c, k, e));
    NewNotOwned(v, sh, v1, ch, d, ci);
    assert forall i :: 0 <= i < |ch| ==> ch[i] != c;
    WalkIsChain(v1.fat, ch, v.g.dirLimit);
    WalkIsChain(v1.fat, ch, v.g.fileLimit);
    DirSlotsFrame(v1.data, v2.data, Visible(ch, v.g.dirLimit));
    DirSlotsFrame(v1.data, v2.data, Visible(ch, v.g.fileLimit));
  }

  ghost predicate NameFresh(S: seq<Bytes>, name: Bytes)
    requires forall k :: 0 <= k < |S| ==> |S[k]| == 32
  {
    forall i :: 0 <= i < |S| ==> !Hit(S[i], name)
  }

  /** The new slot itself. */
  lemma AddSlot(v: Vol, v1: Vol, v2: Vol, sh: Shape, d: int, pos: int, name: Bytes, isDir: bool, ch: seq<int>,
                size: int)
    requires WF(v, sh) && WF(v1, sh) && v2.fat == v1.fat && v2.g == v.g && v1.g == v.g
    requires NewChain(v, v1, ch) && NewObject(v1, isDir, ch, size) && 0 <= size < 0x1_0000_0000
    requires d in sh.objs && sh.objs[d].isDir && FirstFree(DirAt(v1, d), pos)
    requires |name| == 11 && name[0] != END_MARK && NameFresh(DirAt(v1, d), name)
    ensures var e := NewEntry(name, isDir, ch, size);
      && SlotOK(v2, ShapeWith(sh, isDir, ch, d, pos), d, pos, e) && DirOK(DirAt(v1, d)[pos := e])
      && Name(e) == name && e[0] == name[0] && !IsLabel(e)
      && ToNode(v2, e) == Node(ch[0], isDir, size)
      && ch[0] != v.g.root
  {
    assert ChainOK(v, sh, v.g.root);
    NewNotOwned(v, sh, v1, ch, v.g.root, 0);
    assert ch[0] in ch;
    NewSlotOK(v2, sh, name, isDir, ch, size, d, pos);
    assert DirGood(v1, sh, d);
    DirOKAfterAdd(DirAt(v1, d), pos, NewEntry(name, isDir, ch, size));
  }

  lemma AddDirs(v: Vol, v1: Vol, sh: Shape, d: int, ci: int, k: int, pos: int, name: Bytes, isDir: bool, ch: seq<int>,
                size: int, x: int)
    requires WF(v, sh) && WF(v1, sh) && v1.g == v.g
    requires NewChain(v, v1, ch) && NewObject(v1, isDir, ch, size) && 0 <= size < 0x1_0000_0000
    requires AtSlot(v1, sh, d, ci, k, pos) && FirstFree(DirAt(v1, d), pos)
    requires |name| == 11 && name[0] != END_MARK && NameFresh(DirAt(v1, d), name)
    requires x in ShapeWith(sh, isDir, ch, d, pos).objs && ShapeWith(sh, isDir, ch, d, pos).objs[x].isDir
    ensures var c := Visible(sh.objs[d].chain, v.g.dirLimit)[ci];
      DirGood(v1.(data := PutAt(v1, c, k, NewEntry(name, isDir, ch, size))), ShapeWith(sh, isDir, ch, d, pos), x)
  {
    var e := NewEntry(name, isDir, ch, size);
    var v2 := v1.(data := PutAt(v1, Visible(sh.objs[d].chain, v.g.dirLimit)[ci], k, e));
    if x != ch[0] {
      AddSlot(v, v1, v2, sh, d, pos, name, isDir, ch, size);
      OldDirGood(v, v1, sh, d, ci, k, pos, name, isDir, ch, size, x);
    } else {
      NewDirGood(v, v1, sh, ch, d, ci, k, pos, e, ShapeWith(sh, isDir, ch, d, pos));
    }
  }

  lemma AddWF(v: Vol, v1: Vol, sh: Shape, d: int, ci: int, k: int, pos: int, name: Bytes, isDir: bool, ch: seq<int>,
              size: int)
    requires WF(v, sh) && WF(v1, sh) && v1.g == v.g
    requires NewChain(v, v1, ch) && NewObject(v1, isDir, ch, size) && 0 <= size < 0x1_0000_0000
    requires AtSlot(v1, sh, d, ci, k, pos) && FirstFree(DirAt(v1, d), pos)
    requires |name| == 11 && name[0] != END_MARK && NameFresh(DirAt(v1, d), name)
    ensures var c := Visible(sh.objs[d].chain, v.g.dirLimit)[ci];
      WF(v1.(data := PutAt(v1, c, k, NewEntry(name, isDir, ch, size))), ShapeWith(sh, isDir, ch, d, pos))
  {
    var v2 := v1.(data := PutAt(v1, Visible(sh.objs[d].chain, v.g.dirLimit)[ci], k, NewEntry(name, isDir, ch, size)));
    var sh' := ShapeWith(sh, isDir, ch, d, pos);
    assert v.g.root in sh'.objs && sh'.objs[v.g.root].isDir by {
      AddSlot(v, v1, v2, sh, d, pos, name, isDir, ch, size);
    }
    ChainsWith(v1, v2, sh, v, isDir, ch, d, pos);
    forall x | x in sh'.objs && sh'.objs[x].isDir ensures DirGood(v2, sh', x) {
      AddDirs(v, v1, sh, d, ci, k, pos, name, isDir, ch, size, x);
    }
  }

  lemma AgreesTrans(v: Vol, v1: Vol, v2: Vol, sh: Shape, d: int, name: Bytes)
    requires |v.data| == |v.fat| && |v1.data| == |v1.fat| && |v2.data| == |v2.fat|
    requires Agrees(v, sh, v1, d, name, 0) && Agrees(v1, sh, v2, d, name, 0)
    ensures Agrees(v, sh, v2, d, name, 0)
  {}

  /** What a lookup sees after a live entry is written into a free slot. */
  lemma AddSeen(v1: Vol, sh: Shape, d: int, ci: int, k: int, pos: int, name: Bytes, e: Bytes)
    requires WF(v1, sh) && AtSlot(v1, sh, d, ci, k, pos) && |e| == 32 && !Live(DirAt(v1, d)[pos])
    requires DirOK(DirAt(v1, d)[pos := e]) && (Live(e) ==> Name(e) == name)
    ensures var c := Visible(sh.objs[d].chain, v1.g.dirLimit)[ci];
      var v2 := v1.(data := PutAt(v1, c, k, e));
      && Agrees(v1, sh, v2, d, name, 0)
      && (Matches(e, name) ==> Entry(v2, d, name) == Some(e))
  {
    var v2 := v1.(data := PutAt(v1, Visible(sh.objs[d].chain, v1.g.dirLimit)[ci], k, e));
    PutChanges(v1, sh, d, ci, k, pos, e);
    OneDirAgrees(v1, v2, sh, sh.objs.Keys, d, pos, e, name, 0);
    if Matches(e, name) { LookupFinds(DirAt(v2, d), name, pos); }
  }

  /** `v2` is well formed, its name `name` finds the object with chain `ch`, and all else is as in `v`. */
  ghost predicate Added(v: Vol, v1: Vol, v2: Vol, sh: Shape, d: int, pos: int, name: Bytes, isDir: bool, ch: seq<int>,
                        size: int)
    requires |v.data| == |v.fat| && |v2.data| == |v2.fat| && |name| == 11 && |ch| > 0
  {
    var e := NewEntry(name, isDir, ch, size);
    && WF(v2, ShapeWith(sh, isDir, ch, d, pos)) && Agrees(v, sh, v2, d, name, 0)
    && Entry(v2, d, name) == (if Findable(name) then Some(e) else None) && ToNode(v2, e) == Node(ch[0], isDir, size)
    && Within(Visible(ch, v.g.fileLimit), |v1.data|)
    && FileAt(v2, ch[0]) == Contents(v1.data, Visible(ch, v.g.fileLimit))
  }

  /**
   Adding an entry for a chain built on free clusters: the volume stays well formed, the
   name now finds the new object, and no other name is touched.
   */
  lemma AddStep(v: Vol, v1: Vol, sh: Shape, d: int, ci: int, k: int, pos: int, name: Bytes, isDir: bool, ch: seq<int>,
                size: int)
    requires WF(v, sh) && Geometry(v1) && v1.g == v.g
    requires forall f :: f in sh.objs ==> Untouched(v, v1, sh, f)
    requires NewChain(v, v1, ch) && NewObject(v1, isDir, ch, size) && 0 <= size < 0x1_0000_0000
    requires AtSlot(v1, sh, d, ci, k, pos) && FirstFree(DirAt(v1, d), pos)
    requires |name| == 11 && name[0] != END_MARK && name[0] != DELETED && NameFresh(DirAt(v1, d), name)
    ensures var c := Visible(sh.objs[d].chain, v.g.dirLimit)[ci];
      Added(v, v1, v1.(data := PutAt(v1, c, k, NewEntry(name, isDir, ch, size))), sh, d, pos, name, isDir, ch, size)
  {
    var c := Visible(sh.objs[d].chain, v.g.dirLimit)[ci];
    var e := NewEntry(name, isDir, ch, size);
    BuildKeeps(v, v1, sh, d, name);
    var v2 := v1.(data := PutAt(v1, c, k, e));
    AddWF(v, v1, sh, d, ci, k, pos, name, isDir, ch, size);
    AddSlot(v, v1, v2, sh, d, pos, name, isDir, ch, size);
    AddSeen(v1, sh, d, ci, k, pos, name, e);
    AgreesTrans(v, v1, v2, sh, d, name);
    NewDirGood(v, v1, sh, ch, d, ci, k, pos, e, sh);
  }

  lemma OldDirGood(v: Vol, v1: Vol, sh: Shape, d: int, ci: int, k: int, pos: int, name: Bytes, isDir: bool,
                   ch: seq<int>, size: int, x: int)
    requires WF(v, sh) && WF(v1, sh) && v1.g == v.g
    requires NewChain(v, v1, ch) && |name| == 11 && AtSlot(v1, sh, d, ci, k, pos) && x in sh.objs && sh.objs[x].isDir
    requires var e := NewEntry(name, isDir, ch, size);
      var v2 := v1.(data := PutAt(v1, Visible(sh.objs[d].chain, v.g.dirLimit)[ci], k, e));
      && DirOK(DirAt(v1, d)[pos := e]) && SlotOK(v2, ShapeWith(sh, isDir, ch, d, pos), d, pos, e)
    ensures var e := NewEntry(name, isDir, ch, size);
      DirGood(v1.(data := PutAt(v1, Visible(sh.objs[d].chain, v.g.dirLimit)[ci], k, e)),
        ShapeWith(sh, isDir, ch, d, pos), x)
  {
    var e := NewEntry(name, isDir, ch, size);
    var v2 := v1.(data := PutAt(v1, Visible(sh.objs[d].chain, v.g.dirLimit)[ci], k, e));
    var sh' := ShapeWith(sh, isDir, ch, d, pos);
    PutChanges(v1, sh, d, ci, k, pos, e);
    assert DirGood(v1, sh, x) && x in sh.objs.Keys;
    if x != d { ObjectKept(v1, v2, sh, x); }
    var T := DirAt(v2, x);
    forall j | 0 <= j < |T| ensures SlotOK(v2, sh', x, j, T[j]) {
      if (x, j) != (d, pos) {
        assert SlotOK(v1, sh, x, j, DirAt(v1, x)[j]);
        SlotWith(v, v2, sh, v1, isDir, ch, d, pos, x, j, T[j]);
      }
    }
  }

  /** An entry whose name starts with the deletion mark is a deleted slot from the start. */
  lemma AddHidden(v: Vol, v1: Vol, sh: Shape, d: int, ci: int, k: int, pos: int, name: Bytes, e: Bytes)
    requires WF(v, sh) && Geometry(v1) && v1.g == v.g
    requires forall f :: f in sh.objs ==> Untouched(v, v1, sh, f)
    requires AtSlot(v1, sh, d, ci, k, pos) && FirstFree(DirAt(v1, d), pos) && |e| == 32 && e[0] == DELETED
    ensures var v2 := v1.(data := PutAt(v1, Visible(sh.objs[d].chain, v.g.dirLimit)[ci], k, e));
      WF(v2, sh) && Agrees(v, sh, v2, d, name, 0)
  {
    BuildKeeps(v, v1, sh, d, name);
    var v2 := v1.(data := PutAt(v1, Visible(sh.objs[d].chain, v.g.dirLimit)[ci], k, e));
    var S := DirAt(v1, d);
    assert DirGood(v1, sh, d);
    HiddenOK(S, pos, e);
    AddSeen(v1, sh, d, ci, k, pos, name, e);
    AgreesTrans(v, v1, v2, sh, d, name);
    PutChanges(v1, sh, d, ci, k, pos, e);
    forall f | f in sh.objs ensures ChainOK(v2, sh, f) { assert ChainOK(v1, sh, f); }
    forall x | x in sh.objs && sh.objs[x].isDir ensures DirGood(v2, sh, x) {
      HiddenDirGood(v1, sh, d, ci, k, pos, e, x);
    }
  }

  lemma HiddenOK(S: seq<Bytes>, pos: int, e: Bytes)
    requires DirOK(S) && FirstFree(S, pos) && |e| == 32 && e[0] == DELETED
    ensures DirOK(S[pos := e])
  {}

  lemma HiddenDirGood(v1: Vol, sh: Shape, d: int, ci: int, k: int, pos: int, e: Bytes, x: int)
    requires WF(v1, sh) && AtSlot(v1, sh, d, ci, k, pos) && |e| == 32 && e[0] == DELETED
    requires DirOK(DirAt(v1, d)[pos := e])
    requires x in sh.objs && sh.objs[x].isDir
    ensures DirGood(v1.(data := PutAt(v1, Visible(sh.objs[d].chain, v1.g.dirLimit)[ci], k, e)), sh, x)
  {
    var v2 := v1.(data := PutAt(v1, Visible(sh.objs[d].chain, v1.g.dirLimit)[ci], k, e));
    PutChanges(v1, sh, d, ci, k, pos, e);
    assert DirGood(v1, sh, x) && x in sh.objs.Keys;
    if x != d { ObjectKept(v1, v2, sh, x); }
    var T := DirAt(v2, x);
    forall j | 0 <= j < |T| ensures SlotOK(v2, sh, x, j, T[j]) {
      if (x, j) != (d, pos) { assert SlotOK(v1, sh, x, j, DirAt(v1, x)[j]); }
    }
  }

  // ----- The view from every other path -----

  ghost predicate KeptAt(v: Vol, v': Vol, q: Names)
    requires |v.data| == |v.fat| && |v'.data| == |v'.fat| && q != []
  {
    && DirPath(v', q[..|q| - 1]) && Resolve(v', q) == Resolve(v, q)
    && (Resolve(v, q).Some? && !Resolve(v, q).value.isDir ==>
          ReadNode(v', Resolve(v, q).value) == ReadNode(v, Resolve(v, q).value))
  }

  /** Every path through directories that does not lead through `full` finds and reads what it did. */
  ghost predicate OthersKept(v: Vol, v': Vol, full: Names)
    requires |v.data| == |v.fat| && |v'.data| == |v'.fat|
  {
    forall q {:trigger KeptAt(v, v', q)} :: q != [] && Proper(q) && DirPath(v, q[..|q| - 1]) && !(full <= q) ==>
      KeptAt(v, v', q)
  }

  lemma StepKept(v: Vol, sh: Shape, v': Vol, p: Names, name: Bytes, gone: int)
    requires WF(v, sh) && |v'.data| == |v'.fat| && DirPath(v, p) && Proper(p) && Resolve(v, p).Some?
    requires |name| == 11 && name[0] != DOT && Agrees(v, sh, v', Resolve(v, p).value.cluster, name, gone)
    ensures OthersKept(v, v', p + [name])
    ensures DirPath(v', p) && Resolve(v', p) == Resolve(v, p)
  {
    forall q {:trigger KeptAt(v, v', q)} | q != [] && Proper(q) && DirPath(v, q[..|q| - 1]) && !(p + [name] <= q)
      ensures KeptAt(v, v', q)
    {
      PathsKept(v, sh, v', p, name, gone, q);
      if Resolve(v, q).Some? && !Resolve(v, q).value.isDir { FilesKept(v, sh, v', p, name, gone, q); }
    }
    PathsKept(v, sh, v', p, name, gone, p);
  }

  lemma OthersTrans(v: Vol, v1: Vol, v2: Vol, full: Names)
    requires |v.data| == |v.fat| && |v1.data| == |v1.fat| && |v2.data| == |v2.fat|
    requires OthersKept(v, v1, full) && OthersKept(v1, v2, full)
    ensures OthersKept(v, v2, full)
  {
    forall q {:trigger KeptAt(v, v2, q)} | q != [] && Proper(q) && DirPath(v, q[..|q| - 1]) && !(full <= q)
      ensures KeptAt(v, v2, q)
    {
      assert KeptAt(v, v1, q);
      assert KeptAt(v1, v2, q);
    }
  }
}
