/**
 The walk along a directory of a well-formed volume, as the cluster loops of the driver make it.
 */
module FatWalk {
  import opened FatTable
  import opened FatDir
  import opened FatVolume
  import opened FatSteps
  import opened FatLoops

  // ----- Walking a directory of a well-formed volume -----

  /** Loop position: the driver has passed `ci` clusters of the visible chain and stands at `c`. */
  ghost predicate AtCluster(v: Vol, sh: Shape, d: int, ci: int, c: int, limit: int) {
    && d in sh.objs && sh.objs[d].isDir
    && 0 <= ci <= |sh.objs[d].chain| && limit == v.g.dirLimit - ci && limit >= 0
    && (if ci < |sh.objs[d].chain| then c == sh.objs[d].chain[ci] else c >= EOC_MIN)
  }

  /** The slots `T` are those of `S` from `lo` on. */
  ghost predicate Stretch(S: seq<Bytes>, lo: int, T: seq<Bytes>) {
    0 <= lo && lo + |T| <= |S| && forall k :: 0 <= k < |T| ==> S[lo + k] == T[k]
  }

  /** How many slots the first `ci` clusters hold. */
  ghost function Passed(v: Vol, sh: Shape, d: int, ci: int): int
    requires d in sh.objs && 0 <= ci <= |sh.objs[d].chain| && Within(sh.objs[d].chain, |v.data|)
  {
    |DirSlots(v.data, sh.objs[d].chain[..ci])|
  }

  lemma DirStart(v: Vol, sh: Shape, d: int)
    requires WF(v, sh) && d in sh.objs && sh.objs[d].isDir
    ensures AtCluster(v, sh, d, 0, d, v.g.dirLimit) && Within(sh.objs[d].chain, |v.data|) && Passed(v, sh, d, 0) == 0
    ensures DirGood(v, sh, d)
  {
    assert ChainOK(v, sh, d);
    assert sh.objs[d].chain[..0] == [];
    assert DirGood(v, sh, d);
  }

  /** Inside the loop: the cluster at hand is a stretch of the directory. */
  lemma DirHere(v: Vol, sh: Shape, d: int, ci: int, c: int, limit: int)
    requires WF(v, sh) && AtCluster(v, sh, d, ci, c, limit) && c < EOC_MIN && limit > 0
    ensures Within(sh.objs[d].chain, |v.data|) && ci < |sh.objs[d].chain| && 2 <= c < |v.data|
    ensures |v.data[c]| == ClusterBytes(v)
    ensures ci < |Visible(sh.objs[d].chain, v.g.dirLimit)| && Visible(sh.objs[d].chain, v.g.dirLimit)[ci] == c
    ensures Passed(v, sh, d, ci + 1) == Passed(v, sh, d, ci) + |Slots(v.data[c])|
    ensures Stretch(DirAt(v, d), Passed(v, sh, d, ci), Slots(v.data[c]))
    ensures AtCluster(v, sh, d, ci + 1, Val(v.fat[c]), limit - 1) && Val(v.fat[c]) != c && Val(v.fat[c]) >= 2
  {
    LinkHere(v, sh, d, ci);
    StretchHere(v, sh, d, ci);
  }

  lemma StretchHere(v: Vol, sh: Shape, d: int, ci: int)
    requires WF(v, sh) && d in sh.objs && sh.objs[d].isDir && 0 <= ci < |sh.objs[d].chain| && ci < v.g.dirLimit
    ensures Within(sh.objs[d].chain, |v.data|)
    ensures var c := sh.objs[d].chain[ci];
      && |v.data[c]| == ClusterBytes(v)
      && ci < |Visible(sh.objs[d].chain, v.g.dirLimit)| && Visible(sh.objs[d].chain, v.g.dirLimit)[ci] == c
      && Passed(v, sh, d, ci + 1) == Passed(v, sh, d, ci) + |Slots(v.data[c])|
      && Stretch(DirAt(v, d), Passed(v, sh, d, ci), Slots(v.data[c]))
  {
    DirAtIs(v, sh, d);
    StretchOf(v.data, sh.objs[d].chain, v.g.dirLimit, ci);
  }

  /** A directory is the slots of its chain, up to the loop's limit. */
  lemma DirAtIs(v: Vol, sh: Shape, d: int)
    requires WF(v, sh) && d in sh.objs
    ensures Within(sh.objs[d].chain, |v.data|)
    ensures DirAt(v, d) == DirSlots(v.data, Visible(sh.objs[d].chain, v.g.dirLimit))
  {
    assert ChainOK(v, sh, d);
    WalkOf(v, sh, d, v.g.dirLimit);
  }

  lemma StretchOf(data: seq<Bytes>, ch: seq<int>, limit: int, ci: int)
    requires Within(ch, |data|) && 0 <= ci < |ch| && ci < limit
    ensures var vis, c, lo := Visible(ch, limit), ch[ci], |DirSlots(data, ch[..ci])|;
      && ci < |vis| && vis[ci] == c && Within(vis, |data|)
      && |DirSlots(data, ch[..ci + 1])| == lo + |Slots(data[c])| && Stretch(DirSlots(data, vis), lo, Slots(data[c]))
  {
    VisibleUpTo(ch, limit, ci);
    DirStretch(data, Visible(ch, limit), ci);
  }

  lemma VisibleUpTo(ch: seq<int>, limit: int, ci: int)
    requires 0 <= ci < |ch| && ci < limit
    ensures var vis := Visible(ch, limit);
      ci < |vis| <= |ch| && vis[ci] == ch[ci] && vis[..ci] == ch[..ci] && vis[..ci + 1] == ch[..ci + 1]
  {}

  lemma LinkHere(v: Vol, sh: Shape, d: int, ci: int)
    requires WF(v, sh) && d in sh.objs && 0 <= ci < |sh.objs[d].chain|
    ensures var ch := sh.objs[d].chain;
      && 2 <= ch[ci] < |v.fat| && Val(v.fat[ch[ci]]) != ch[ci]
      && (if ci + 1 < |ch| then Val(v.fat[ch[ci]]) == ch[ci + 1] && ch[ci + 1] >= 2 else Val(v.fat[ch[ci]]) >= EOC_MIN)
  {
    assert ChainOK(v, sh, d);
    var ch := sh.objs[d].chain;
    if ci + 1 < |ch| && ch[ci] == ch[ci + 1] { ChainsDisjoint(v, sh, d, ci, d, ci + 1); }
  }

  /** The slots of one cluster are a stretch of the slots of its chain. */
  lemma DirStretch(data: seq<Bytes>, ch: seq<int>, ci: int)
    requires Within(ch, |data|) && 0 <= ci < |ch|
    ensures var lo := |DirSlots(data, ch[..ci])|;
      && |DirSlots(data, ch[..ci + 1])| == lo + |Slots(data[ch[ci]])|
      && Stretch(DirSlots(data, ch), lo, Slots(data[ch[ci]]))
  {
    var pre, c, post := ch[..ci], ch[ci], ch[ci + 1..];
    assert ch == pre + [c] + post;
    DirSlotsAround(data, pre, c, post);
    assert ch[..ci + 1] == pre + [c] + [];
    DirSlotsAround(data, pre, c, []);
  }

  lemma DirSlotHere(v: Vol, sh: Shape, d: int, ci: int, c: int, limit: int, k: int)
    requires WF(v, sh) && AtCluster(v, sh, d, ci, c, limit) && c < EOC_MIN && limit > 0
    requires 0 <= k < 16 * v.g.spc && 0 <= c < |v.data| && |v.data[c]| == ClusterBytes(v)
    requires Within(sh.objs[d].chain, |v.data|)
    ensures AtSlot(v, sh, d, ci, k, Passed(v, sh, d, ci) + k)
  {
    DirHere(v, sh, d, ci, c, limit);
    var vis := Visible(sh.objs[d].chain, v.g.dirLimit);
    assert vis[..ci] == sh.objs[d].chain[..ci];
  }

  /** No slot of the first `ci` clusters goes by `name`. */
  ghost predicate FreshTo(v: Vol, sh: Shape, d: int, ci: int, name: Bytes)
    requires |v.data| == |v.fat| && d in sh.objs && 0 <= ci <= |sh.objs[d].chain|
  {
    && Within(sh.objs[d].chain, |v.data|)
    && forall i :: 0 <= i < Passed(v, sh, d, ci) && i < |DirAt(v, d)| ==> !Hit(DirAt(v, d)[i], name)
  }

  /** All slots of the first `ci` clusters are taken. */
  ghost predicate LiveTo(v: Vol, sh: Shape, d: int, ci: int)
    requires |v.data| == |v.fat| && d in sh.objs && 0 <= ci <= |sh.objs[d].chain|
  {
    && Within(sh.objs[d].chain, |v.data|)
    && forall i :: 0 <= i < Passed(v, sh, d, ci) && i < |DirAt(v, d)| ==> Live(DirAt(v, d)[i])
  }

  lemma ClusterReady(v: Vol, sh: Shape, d: int, ci: int, c: int, limit: int)
    requires WF(v, sh) && AtCluster(v, sh, d, ci, c, limit) && c < EOC_MIN && limit > 0
    ensures 2 <= c < |v.data| && |v.data[c]| == ClusterBytes(v) && DirOK(Slots(v.data[c]))
  {
    DirHere(v, sh, d, ci, c, limit);
    assert DirGood(v, sh, d);
    ClusterDirOK(v, d, Passed(v, sh, d, ci), Slots(v.data[c]));
  }

  lemma DeleteMiss(v: Vol, sh: Shape, d: int, ci: int, c: int, limit: int, name: Bytes)
    requires WF(v, sh) && AtCluster(v, sh, d, ci, c, limit) && c < EOC_MIN && limit > 0 && FreshTo(v, sh, d, ci, name)
    requires 0 <= c < |v.data| && forall i :: 0 <= i < |Slots(v.data[c])| ==> !Hit(Slots(v.data[c])[i], name)
    ensures 2 <= c < |v.fat| && AtCluster(v, sh, d, ci + 1, Val(v.fat[c]), limit - 1) && FreshTo(v, sh, d, ci + 1, name)
    ensures Val(v.fat[c]) != c && Val(v.fat[c]) >= 2
  {
    DirHere(v, sh, d, ci, c, limit);
    StretchFresh(DirAt(v, d), Passed(v, sh, d, ci), Slots(v.data[c]), name);
  }

  lemma RoomMiss(v: Vol, sh: Shape, d: int, ci: int, c: int, limit: int)
    requires WF(v, sh) && AtCluster(v, sh, d, ci, c, limit) && c < EOC_MIN && limit > 0 && LiveTo(v, sh, d, ci)
    requires 0 <= c < |v.data| && forall i :: 0 <= i < |Slots(v.data[c])| ==> Live(Slots(v.data[c])[i])
    ensures 2 <= c < |v.fat| && AtCluster(v, sh, d, ci + 1, Val(v.fat[c]), limit - 1) && LiveTo(v, sh, d, ci + 1)
    ensures Val(v.fat[c]) != c && Val(v.fat[c]) >= 2
  {
    DirHere(v, sh, d, ci, c, limit);
    StretchLive(DirAt(v, d), Passed(v, sh, d, ci), Slots(v.data[c]), -1);
  }

  lemma SlotHit(v: Vol, sh: Shape, d: int, ci: int, c: int, limit: int, k: int) returns (pos: int)
    requires WF(v, sh) && AtCluster(v, sh, d, ci, c, limit) && c < EOC_MIN && limit > 0
    requires 0 <= c < |v.data| && 0 <= k < |Slots(v.data[c])|
    ensures AtSlot(v, sh, d, ci, k, pos) && c == Visible(sh.objs[d].chain, v.g.dirLimit)[ci]
    ensures DirAt(v, d)[pos] == Slots(v.data[c])[k]
  {
    DirHere(v, sh, d, ci, c, limit);
    DirSlotHere(v, sh, d, ci, c, limit, k);
    pos := Passed(v, sh, d, ci) + k;
  }

  lemma RoomHit(v: Vol, sh: Shape, d: int, ci: int, c: int, limit: int, k: int) returns (pos: int)
    requires WF(v, sh) && AtCluster(v, sh, d, ci, c, limit) && c < EOC_MIN && limit > 0 && LiveTo(v, sh, d, ci)
    requires 0 <= c < |v.data| && 0 <= k < |Slots(v.data[c])|
    requires !Live(Slots(v.data[c])[k]) && forall i :: 0 <= i < k ==> Live(Slots(v.data[c])[i])
    ensures AtSlot(v, sh, d, ci, k, pos) && c == Visible(sh.objs[d].chain, v.g.dirLimit)[ci]
    ensures FirstFree(DirAt(v, d), pos)
  {
    DirHere(v, sh, d, ci, c, limit);
    StretchLive(DirAt(v, d), Passed(v, sh, d, ci), Slots(v.data[c]), k);
    pos := SlotHit(v, sh, d, ci, c, limit, k);
    assert pos == Passed(v, sh, d, ci) + k by {
      assert Visible(sh.objs[d].chain, v.g.dirLimit)[..ci] == sh.objs[d].chain[..ci];
    }
  }

  /** After the loop the whole visible directory has been passed. */
  lemma DirEnd(v: Vol, sh: Shape, d: int, ci: int, c: int, limit: int)
    requires WF(v, sh) && AtCluster(v, sh, d, ci, c, limit) && (c < 2 || c >= EOC_MIN || limit == 0)
    ensures Within(sh.objs[d].chain, |v.data|) && Passed(v, sh, d, ci) == |DirAt(v, d)|
  {
    assert ChainOK(v, sh, d);
    WalkOf(v, sh, d, v.g.dirLimit);
    assert sh.objs[d].chain[..ci] == Visible(sh.objs[d].chain, v.g.dirLimit);
  }

  lemma ClusterDirOK(v: Vol, d: int, lo: int, S: seq<Bytes>)
    requires |v.data| == |v.fat| && DirOK(DirAt(v, d)) && Stretch(DirAt(v, d), lo, S)
    requires forall k :: 0 <= k < |S| ==> |S[k]| == 32
    ensures DirOK(S)
  {
    forall i, j | 0 <= i < j < |S|
      ensures S[i][0] == END_MARK ==> S[j][0] == END_MARK
      ensures Live(S[i]) && Live(S[j]) && Findable(Name(S[i])) ==> Name(S[i]) != Name(S[j])
    {
      assert DirAt(v, d)[lo + i] == S[i] && DirAt(v, d)[lo + j] == S[j];
    }
    forall i | 0 <= i < |S| && Live(S[i]) ensures S[i][11] != ATTR_LFN { assert DirAt(v, d)[lo + i] == S[i]; }
  }

  lemma StretchFresh(S: seq<Bytes>, lo: int, T: seq<Bytes>, name: Bytes)
    requires Stretch(S, lo, T) && (forall k :: 0 <= k < |S| ==> |S[k]| == 32)
    requires forall k :: 0 <= k < |T| ==> |T[k]| == 32
    requires forall i :: 0 <= i < lo && i < |S| ==> !Hit(S[i], name)
    requires forall k :: 0 <= k < |T| ==> !Hit(T[k], name)
    ensures forall i :: 0 <= i < lo + |T| && i < |S| ==> !Hit(S[i], name)
  {
    forall i | lo <= i < lo + |T| ensures S[i] == T[i - lo] { assert S[lo + (i - lo)] == T[i - lo]; }
  }

  lemma StretchLive(S: seq<Bytes>, lo: int, T: seq<Bytes>, k: int)
    requires Stretch(S, lo, T) && (forall k :: 0 <= k < |S| ==> |S[k]| == 32)
    requires forall k :: 0 <= k < |T| ==> |T[k]| == 32
    requires forall i :: 0 <= i < lo && i < |S| ==> Live(S[i])
    requires -1 <= k < |T|
    requires
      if k == -1 then forall i :: 0 <= i < |T| ==> Live(T[i])
      else !Live(T[k]) && forall i :: 0 <= i < k ==> Live(T[i])
    ensures if k == -1 then forall i :: 0 <= i < lo + |T| && i < |S| ==> Live(S[i]) else FirstFree(S, lo + k)
  {
    forall i | lo <= i < lo + |T| ensures S[i] == T[i - lo] { assert S[lo + (i - lo)] == T[i - lo]; }
  }

  lemma SameByte(b: Bytes, i: int)
    requires 0 <= i < |b| && b[i] == END_MARK
    ensures b[i := END_MARK] == b
  {}

  lemma SlotBounds(v: Vol, sh: Shape, d: int, ci: int, k: int, pos: int)
    requires WF(v, sh) && AtSlot(v, sh, d, ci, k, pos)
    ensures var c := Visible(sh.objs[d].chain, v.g.dirLimit)[ci];
      0 <= c < |v.data| && |v.data[c]| == 512 * v.g.spc && 0 <= k < 16 * v.g.spc
        && DirAt(v, d)[pos][0] == v.data[c][32 * k]
  {}

  /** Behind an end mark the next slot of the cluster is an end mark already. */
  lemma EndMarkThere(v: Vol, sh: Shape, d: int, ci: int, k: int, pos: int)
    requires WF(v, sh) && AtSlot(v, sh, d, ci, k, pos) && k + 1 < 16 * v.g.spc && DirAt(v, d)[pos][0] == END_MARK
    ensures var c := Visible(sh.objs[d].chain, v.g.dirLimit)[ci];
      0 <= c < |v.data| && 32 * (k + 1) < |v.data[c]| && v.data[c][32 * (k + 1)] == END_MARK
  {
    NextSlot(v, sh, d, ci, k, pos);
    assert DirGood(v, sh, d);
    assert DirAt(v, d)[pos + 1][0] == END_MARK;
  }

  lemma NextSlot(v: Vol, sh: Shape, d: int, ci: int, k: int, pos: int)
    requires WF(v, sh) && AtSlot(v, sh, d, ci, k, pos) && k + 1 < 16 * v.g.spc
    ensures var c := Visible(sh.objs[d].chain, v.g.dirLimit)[ci];
      && 0 <= c < |v.data| && 32 * (k + 1) < |v.data[c]| && pos + 1 < |DirAt(v, d)|
      && DirAt(v, d)[pos + 1][0] == v.data[c][32 * (k + 1)]
  {
    var vis := Visible(sh.objs[d].chain, v.g.dirLimit);
    SlotBounds(v, sh, d, ci, k, pos);
    VisibleWalk(v, sh, d);
    FirstByteIn(v.data, vis, ci, k + 1);
  }

  lemma FirstByteIn(data: seq<Bytes>, vis: seq<int>, ci: int, k: int)
    requires Within(vis, |data|) && 0 <= ci < |vis| && 0 <= k && 32 * k + 32 <= |data[vis[ci]]|
    ensures var pos := |DirSlots(data, vis[..ci])| + k;
      pos < |DirSlots(data, vis)| && DirSlots(data, vis)[pos][0] == data[vis[ci]][32 * k]
  {
    DirStretch(data, vis, ci);
    FirstByteAt(DirSlots(data, vis), |DirSlots(data, vis[..ci])|, data[vis[ci]], k);
  }

  lemma FirstByteAt(S: seq<Bytes>, lo: int, b: Bytes, k: int)
    requires Stretch(S, lo, Slots(b)) && 0 <= k && 32 * k + 32 <= |b|
    ensures 0 <= lo + k < |S| && |S[lo + k]| == 32 && S[lo + k][0] == b[32 * k]
  {
    assert S[lo + k] == Slots(b)[k] == SlotAt(b, k);
  }

  // ----- Where a deletion finds its slot -----

  /** The cluster loop of fat32_delete_file on any volume: the cluster and slot it takes. */
  function DeleteSearch(v: Vol, c: int, limit: int, name: Bytes): (r: Option<(int, int)>)
    requires |v.data| == |v.fat|
    ensures r.Some? ==> 0 <= r.value.0 < |v.data| && 0 <= r.value.1 && 32 * r.value.1 + 32 <= |v.data[r.value.0]|
    decreases limit
  {
    if 2 <= c < EOC_MIN && c < |v.fat| && limit > 0 then
      var k := DeleteScan(Slots(v.data[c]), name, 0);
      if k != -1 then Some((c, k))
      else if Val(v.fat[c]) == c || Val(v.fat[c]) < 2 then None
      else DeleteSearch(v, Val(v.fat[c]), limit - 1, name)
    else None
  }

  /** In a directory of a well-formed volume it finds the slot with the name, wherever it is. */
  lemma {:induction false} SearchFrom(v: Vol, sh: Shape, d: int, ci: int, c: int, limit: int, name: Bytes)
    returns (ci': int, pos: int)
    requires WF(v, sh) && AtCluster(v, sh, d, ci, c, limit) && FreshTo(v, sh, d, ci, name)
    ensures match DeleteSearch(v, c, limit, name)
      case None => NameFresh(DirAt(v, d), name)
      case Some((c', k)) =>
        AtSlot(v, sh, d, ci', k, pos) && c' == Visible(sh.objs[d].chain, v.g.dirLimit)[ci']
          && Hit(DirAt(v, d)[pos], name)
    decreases limit
  {
    ci', pos := ci, 0;
    if 2 <= c < EOC_MIN && limit > 0 {
      ClusterReady(v, sh, d, ci, c, limit);
      var S := Slots(v.data[c]);
      var k := DeleteScan(S, name, 0);
      if k != -1 {
        pos := SlotHit(v, sh, d, ci, c, limit, k);
      } else {
        forall i | 0 <= i < |S| ensures !Hit(S[i], name) { DeleteScanMisses(S, name, 0, i); }
        DeleteMiss(v, sh, d, ci, c, limit, name);
        ci', pos := SearchFrom(v, sh, d, ci + 1, Val(v.fat[c]), limit - 1, name);
      }
    } else {
      DirEnd(v, sh, d, ci, c, limit);
    }
  }

  lemma SearchFinds(v: Vol, sh: Shape, d: int, name: Bytes) returns (ci: int, pos: int)
    requires WF(v, sh) && d in sh.objs && sh.objs[d].isDir
    ensures InTable(v, d)
    ensures match DeleteSearch(v, d, v.g.dirLimit, name)
      case None => NameFresh(DirAt(v, d), name)
      case Some((c, k)) =>
        AtSlot(v, sh, d, ci, k, pos) && c == Visible(sh.objs[d].chain, v.g.dirLimit)[ci] && Hit(DirAt(v, d)[pos], name)
  {
    DirStart(v, sh, d);
    assert ChainOK(v, sh, d);
    ci, pos := SearchFrom(v, sh, d, 0, d, v.g.dirLimit, name);
  }

  // ----- Where a new entry finds its slot -----

  /** Every slot of the directory is taken. */
  ghost predicate DirFull(v: Vol, d: int)
    requires |v.data| == |v.fat|
  {
    forall i :: 0 <= i < |DirAt(v, d)| ==> Live(DirAt(v, d)[i])
  }

  /** The first slot from `k` on that is not taken, or -1. */
  function RoomScan(S: seq<Bytes>, k: nat): (r: int)
    requires k <= |S| && forall i :: 0 <= i < |S| ==> |S[i]| == 32
    ensures r == -1 ==> forall i :: k <= i < |S| ==> Live(S[i])
    ensures r != -1 ==> k <= r < |S| && !Live(S[r]) && forall i :: k <= i < r ==> Live(S[i])
    decreases |S| - k
  {
    if k == |S| then -1 else if !Live(S[k]) then k else RoomScan(S, k + 1)
  }

  /** The cluster loop shared by fat32_write_file and fat32_mkdir on any volume: the cluster and slot it takes. */
  function RoomSearch(v: Vol, c: int, limit: int): (r: Option<(int, int)>)
    requires |v.data| == |v.fat|
    ensures r.Some? ==> 0 <= r.value.0 < |v.data| && 0 <= r.value.1 && 32 * r.value.1 + 32 <= |v.data[r.value.0]|
    decreases limit
  {
    if 2 <= c < EOC_MIN && c < |v.fat| && limit > 0 then
      var k := RoomScan(Slots(v.data[c]), 0);
      if k != -1 then Some((c, k))
      else if Val(v.fat[c]) == c || Val(v.fat[c]) < 2 then None
      else RoomSearch(v, Val(v.fat[c]), limit - 1)
    else None
  }

  /** What was found is the first slot of the directory that is not taken, or there is none. */
  ghost predicate RoomAt(v: Vol, sh: Shape, d: int, found: Option<(int, int)>, ci: int, pos: int)
    requires |v.data| == |v.fat|
  {
    match found
    case None => DirFull(v, d)
    case Some((c, k)) =>
      AtSlot(v, sh, d, ci, k, pos) && c == Visible(sh.objs[d].chain, v.g.dirLimit)[ci] && FirstFree(DirAt(v, d), pos)
  }

  /** In a directory of a well-formed volume it finds the first slot that is not taken. */
  lemma {:induction false} RoomFrom(v: Vol, sh: Shape, d: int, ci: int, c: int, limit: int)
    returns (ci': int, pos: int)
    requires WF(v, sh) && AtCluster(v, sh, d, ci, c, limit) && LiveTo(v, sh, d, ci)
    ensures RoomAt(v, sh, d, RoomSearch(v, c, limit), ci', pos)
    decreases limit
  {
    ci', pos := ci, 0;
    if 2 <= c < EOC_MIN && limit > 0 {
      ClusterReady(v, sh, d, ci, c, limit);
      var k := RoomScan(Slots(v.data[c]), 0);
      if k != -1 {
        pos := RoomHit(v, sh, d, ci, c, limit, k);
      } else {
        RoomMiss(v, sh, d, ci, c, limit);
        ci', pos := RoomFrom(v, sh, d, ci + 1, Val(v.fat[c]), limit - 1);
      }
    } else {
      DirEnd(v, sh, d, ci, c, limit);
    }
  }

  lemma RoomFinds(v: Vol, sh: Shape, d: int) returns (ci: int, pos: int)
    requires WF(v, sh) && d in sh.objs && sh.objs[d].isDir
    ensures RoomAt(v, sh, d, RoomSearch(v, d, v.g.dirLimit), ci, pos)
  {
    DirStart(v, sh, d);
    ci, pos := RoomFrom(v, sh, d, 0, d, v.g.dirLimit);
  }
}
