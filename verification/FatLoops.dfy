/**
 The loops of the FAT32 driver that touch no driver state: over the slots of a cluster,
 the sectors of a file, and the characters of a name.
 */
module FatLoops {
  import opened FatTable
  import opened FatDir
  import opened FatVolume
  import opened FatPaths

  // ----- Contents of a new chain -----

  function Zeros(n: int): (r: Bytes)
    ensures |r| == if n > 0 then n else 0
  {
    seq(if n > 0 then n else 0, _ => 0)
  }

  /** The first `n` bytes, zero-filled when there are fewer. */
  function PadTo(b: Bytes, n: int): (r: Bytes)
    requires n >= 0
    ensures |r| == n
  {
    if |b| >= n then b[..n] else b + Zeros(n - |b|)
  }

  function Drop(b: Bytes, n: int): Bytes
    requires n >= 0
  {
    if n <= |b| then b[n..] else []
  }

  lemma PadGrows(b: Bytes, i: int, cb: int)
    requires i >= 0 && cb > 0
    ensures i * cb >= 0 && (i + 1) * cb == i * cb + cb
    ensures PadTo(b, (i + 1) * cb) == PadTo(b, i * cb) + PadTo(Drop(b, i * cb), cb)
  {
    PadConcat(b, i * cb, cb);
  }

  lemma PadConcat(b: Bytes, n: int, m: int)
    requires n >= 0 && m >= 0
    ensures PadTo(b, n + m) == PadTo(b, n) + PadTo(Drop(b, n), m)
  {}

  lemma SectorImage(bytes: Bytes, off: int, s: int, chunk: int)
    requires 0 <= off && 0 <= s
    requires var left := |Drop(bytes, off)| - 512 * s; chunk == if left > 512 then 512 else if left > 0 then left else 0
    ensures chunk > 0 ==> off + 512 * s + chunk <= |bytes|
    ensures PadTo(Drop(bytes, off), 512 * s + 512) == PadTo(Drop(bytes, off), 512 * s)
      + ((if chunk > 0 then bytes[off + 512 * s..off + 512 * s + chunk] else []) + Zeros(512 - chunk))
  {
    PadConcat(Drop(bytes, off), 512 * s, 512);
    DropDrop(bytes, off, 512 * s);
    if chunk > 0 {
      assert bytes[off + 512 * s..][..chunk] == bytes[off + 512 * s..off + 512 * s + chunk];
    }
  }

  /** The first `s` sectors hold the new bytes, the others what was there. */
  ghost predicate FilledTo(image: Bytes, before: Bytes, rest: Bytes, s: int) {
    0 <= s && 512 * s <= |before| && image == PadTo(rest, 512 * s) + before[512 * s..]
  }

  lemma FillStep(image: Bytes, before: Bytes, bytes: Bytes, off: int, s: int, chunk: int)
    requires 0 <= off && 0 <= s && 512 * s + 512 <= |before| && FilledTo(image, before, Drop(bytes, off), s)
    requires var left := |Drop(bytes, off)| - 512 * s; chunk == if left > 512 then 512 else if left > 0 then left else 0
    ensures chunk > 0 ==> off + 512 * s + chunk <= |bytes|
    ensures |image| == |before| && FilledTo(image[..512 * s]
        + ((if chunk > 0 then bytes[off + 512 * s..off + 512 * s + chunk] else []) + Zeros(512 - chunk))
        + image[512 * s + 512..], before, Drop(bytes, off), s + 1)
  {
    SectorImage(bytes, off, s, chunk);
    SectorWrite(PadTo(Drop(bytes, off), 512 * s), before,
                (if chunk > 0 then bytes[off + 512 * s..off + 512 * s + chunk] else []) + Zeros(512 - chunk), s);
  }

  lemma DropDrop(b: Bytes, n: int, m: int)
    requires n >= 0 && m >= 0
    ensures Drop(Drop(b, n), m) == Drop(b, n + m)
  {}

  lemma SectorWrite(done: Bytes, before: Bytes, sector: Bytes, s: int)
    requires 0 <= s && |done| == 512 * s && 512 * s + 512 <= |before| && |sector| == 512
    ensures var b := done + before[512 * s..];
      b[..512 * s] + sector + b[512 * s + 512..] == (done + sector) + before[512 * s + 512..]
  {}

  // ----- Loops over one cluster or one chain -----

  /** The two loops of match_dos_name, which compare unsigned bytes of the slot with signed characters. */
  method MatchDosName(e: Bytes, name: Bytes) returns (same: bool)
    requires |e| == 32 && |name| == 11 && IsBytes(e) && IsBytes(name)
    ensures same == (Name(e) == name && Findable(name))
  {
    SignedMatch(e, name);
    var k := 0;
    while k < 8
      invariant 0 <= k <= 8 && forall i :: 0 <= i < k ==> e[i] == Signed(name[i])
    {
      if e[k] != Signed(name[k]) {
        return false;
      }
      k := k + 1;
    }
    k := 0;
    while k < 3
      invariant 0 <= k <= 3 && forall i :: 0 <= i < 8 + k ==> e[i] == Signed(name[i])
    {
      if e[8 + k] != Signed(name[8 + k]) {
        return false;
      }
      k := k + 1;
    }
    same := true;
  }

  /** Whether a slot that is no end mark is the one looked up. */
  method TestForLookup(e: Bytes, name: Bytes) returns (hit: bool)
    requires |e| == 32 && |name| == 11 && e[0] != END_MARK && IsBytes(e) && IsBytes(name)
    ensures hit == Matches(e, name)
  {
    var same := MatchDosName(e, name);
    hit := e[0] != DELETED && e[11] != ATTR_LFN && !IsLabel(e) && same;
    if e[11] == ATTR_LFN { LfnIsLabel(e); }
  }

  /** The lookup scan from slot `k` on gives `all`. */
  ghost predicate Scans(b: Bytes, name: Bytes, k: nat, all: Scan) {
    k <= |Slots(b)| && ScanFor(Slots(b), name, k) == all
  }

  /** One slot of the lookup. */
  method ScanSlot(b: Bytes, k: nat, name: Bytes, ghost all: Scan) returns (r: Scan)
    requires k < |b| / 32 && |name| == 11 && IsBytes(b) && IsBytes(name) && Scans(b, name, k, all)
    ensures if r != More then r == all else Scans(b, name, k + 1, all)
  {
    var e := SlotAt(b, k);
    SliceBytes(b, 32 * k, 32 * k + 32);
    assert e == Slots(b)[k];
    ScanForStep(Slots(b), name, k);
    if e[0] == END_MARK {
      return End;
    }
    var hit := TestForLookup(e, name);
    r := if hit then Found(k) else More;
  }

  /** The slot loop over sector `i`. */
  method ScanSector(b: Bytes, i: nat, name: Bytes, ghost all: Scan) returns (r: Scan)
    requires 512 * i + 512 <= |b| && |name| == 11 && IsBytes(b) && IsBytes(name) && Scans(b, name, 16 * i, all)
    ensures if r != More then r == all else Scans(b, name, 16 * (i + 1), all)
  {
    var j := 0;
    while j < 16
      invariant 0 <= j <= 16 && Scans(b, name, 16 * i + j, all)
    {
      r := ScanSlot(b, 16 * i + j, name, all);
      if r != More {
        return;
      }
      j := j + 1;
    }
    r := More;
  }

  /** The slot loops over one cluster: sixteen slots in each sector. */
  method ScanCluster(b: Bytes, spc: int, name: Bytes) returns (r: Scan)
    requires |b| == 512 * spc && 0 < spc && |name| == 11 && IsBytes(b) && IsBytes(name)
    ensures r == ScanFor(Slots(b), name, 0)
  {
    var i := 0;
    ghost var all := ScanFor(Slots(b), name, 0);
    while i < spc
      invariant 0 <= i <= spc && Scans(b, name, 16 * i, all)
    {
      r := ScanSector(b, i, name, all);
      if r != More {
        return;
      }
      i := i + 1;
    }
    assert |Slots(b)| == 16 * i;
    r := More;
  }

  lemma ScanForStep(S: seq<Bytes>, name: Bytes, k: nat)
    requires (forall l :: 0 <= l < |S| ==> |S[l]| == 32) && k < |S|
    ensures ScanFor(S, name, k) ==
      if S[k][0] == END_MARK then End else if Matches(S[k], name) then Found(k) else ScanFor(S, name, k + 1)
  {}

  /** The copy loop of fat32_read_file over one cluster. */
  method CopyCluster(b: Bytes, spc: int, out0: Bytes, size: int) returns (out: Bytes)
    requires |b| == 512 * spc && 0 < spc && |out0| < size
    ensures out == Take(out0 + b, size)
  {
    out := out0;
    var s := 0;
    while s < spc
      invariant 0 <= s <= spc
      invariant out == out0 + b[..512 * s] && |out| < size
    {
      var remaining := size - |out|;
      var toCopy := if remaining < 512 then remaining else 512;
      assert b[..512 * s] + b[512 * s..512 * s + toCopy] == b[..512 * s + toCopy];
      out := out + b[512 * s..512 * s + toCopy];
      if |out| >= size {
        return;
      }
      s := s + 1;
    }
    assert b[..512 * s] == b;
  }

  /** The cluster loop of fat32_read_file. */
  method ReadChain(g: Geo, fat: seq<int>, data: seq<Bytes>, start: int, size: int) returns (out: Bytes)
    requires Geometry(Vol(g, fat, data))
    ensures out == Take(FileAt(Vol(g, fat, data), start), size)
  {
    var v := Vol(g, fat, data);
    CopyStart(v, start, size);
    out := ReadClusters(v, start, size, FileAt(v, start));
  }

  method ReadClusters(v: Vol, start: int, size: int, ghost all: Bytes) returns (out: Bytes)
    requires Geometry(v) && CopiedTo(v, all, [], start, v.g.fileLimit, size)
    ensures out == Take(all, size)
  {
    out := [];
    var c, limit := start, v.g.fileLimit;
    while |out| < size && 2 <= c < EOC_MIN && c < |v.fat| && limit > 0
      invariant limit >= 0 && CopiedTo(v, all, out, c, limit, size)
      decreases limit
    {
      out := ReadCluster(v, c, out, size, all, limit);
      var next := Val(v.fat[c]);
      if next == c || next < 2 {
        return;
      }
      c, limit := next, limit - 1;
    }
    CopyEnd(v, all, out, c, limit, size);
  }

  /** One round of the cluster loop. */
  method ReadCluster(v: Vol, c: int, out0: Bytes, size: int, ghost all: Bytes, ghost limit: int) returns (out: Bytes)
    requires Geometry(v) && 2 <= c < |v.fat| && limit > 0 && |out0| < size && CopiedTo(v, all, out0, c, limit, size)
    ensures var next := Val(v.fat[c]);
      if next == c || next < 2 then out == Take(all, size) else CopiedTo(v, all, out, next, limit - 1, size)
  {
    CopyRound(v, all, out0, c, limit, size);
    out := CopyCluster(v.data[c], v.g.spc, out0, size);
  }

  /** `out` holds the start of `all`, and the walk from `c` on leads through the rest. */
  ghost predicate CopiedTo(v: Vol, all: Bytes, out: Bytes, c: int, limit: int, size: int)
    requires |v.data| == |v.fat|
  {
    Copied(all, out, Contents(v.data, Walk(v.fat, c, limit)), size)
  }

  lemma CopyStart(v: Vol, start: int, size: int)
    requires |v.data| == |v.fat|
    ensures CopiedTo(v, FileAt(v, start), [], start, v.g.fileLimit, size)
  {
    assert [] + FileAt(v, start) == FileAt(v, start);
  }

  lemma CopyRound(v: Vol, all: Bytes, out: Bytes, c: int, limit: int, size: int)
    requires Geometry(v) && 2 <= c < |v.fat| && limit > 0 && |out| < size && CopiedTo(v, all, out, c, limit, size)
    ensures var next, out' := Val(v.fat[c]), Take(out + v.data[c], size);
      if next == c || next < 2 then out' == Take(all, size) else CopiedTo(v, all, out', next, limit - 1, size)
  {
    WalkStep(v.data, v.fat, c, limit);
    var rest := Contents(v.data, WalkRest(v.fat, c, limit));
    CopyStep(all, out, v.data[c], rest, size);
    if Val(v.fat[c]) == c || Val(v.fat[c]) < 2 { CopyDone(all, Take(out + v.data[c], size), rest, size); }
  }

  lemma CopyEnd(v: Vol, all: Bytes, out: Bytes, c: int, limit: int, size: int)
    requires Geometry(v) && CopiedTo(v, all, out, c, limit, size)
    requires |out| >= size || c < 2 || c >= |v.fat| || limit <= 0
    ensures out == Take(all, size)
  {
    if |out| < size { assert Walk(v.fat, c, limit) == []; }
    CopyDone(all, out, Contents(v.data, Walk(v.fat, c, limit)), size);
  }

  /** How many of the bytes `rest` are left after `s` sectors. */
  function LeftAfter(rest: Bytes, s: int): int { if |rest| > 512 * s then |rest| - 512 * s else 0 }

  /** One round of the sector loop: sector `s` of the image is zeroed and filled. */
  method FillSector(image: Bytes, bytes: Bytes, off: int, s: int, left: int, ghost before: Bytes)
    returns (image': Bytes, left': int)
    requires 0 <= off && 0 <= s && 512 * s + 512 <= |before| && FilledTo(image, before, Drop(bytes, off), s)
    requires left == LeftAfter(Drop(bytes, off), s)
    ensures FilledTo(image', before, Drop(bytes, off), s + 1) && left' == LeftAfter(Drop(bytes, off), s + 1)
  {
    var chunk := if left > 512 then 512 else left;
    FillStep(image, before, bytes, off, s, chunk);
    var sector := (if chunk > 0 then bytes[off + 512 * s..off + 512 * s + chunk] else []) + Zeros(512 - chunk);
    image' := image[..512 * s] + sector + image[512 * s + 512..];
    left' := left - chunk;
  }

  /** The sector loop of fat32_write_file: the cluster image filled from `bytes` at `off`, zero-padded. */
  method ClusterImage(before: Bytes, spc: int, bytes: Bytes, off: int) returns (image: Bytes)
    requires |before| == 512 * spc && 0 < spc && 0 <= off
    ensures image == PadTo(Drop(bytes, off), 512 * spc)
  {
    var left := if |bytes| > off then |bytes| - off else 0;
    image := before;
    var s := 0;
    FilledStart(before, Drop(bytes, off));
    while s < spc
      invariant 0 <= s <= spc
      invariant left == LeftAfter(Drop(bytes, off), s)
      invariant FilledTo(image, before, Drop(bytes, off), s)
    {
      image, left := FillSector(image, bytes, off, s, left, before);
      s := s + 1;
    }
    FilledEnd(image, before, Drop(bytes, off), s);
  }

  lemma FilledStart(before: Bytes, rest: Bytes)
    ensures FilledTo(before, before, rest, 0)
  {
    assert PadTo(rest, 0) + before[0..] == before;
  }

  lemma FilledEnd(image: Bytes, before: Bytes, rest: Bytes, s: int)
    requires FilledTo(image, before, rest, s) && |before| == 512 * s
    ensures image == PadTo(rest, 512 * s)
  {}

  /** The deletion scan of one cluster from slot `k`, or -1: an end mark ends only its own sector of sixteen slots. */
  function DeleteScan(S: seq<Bytes>, name: Bytes, k: nat): (r: int)
    requires forall i :: 0 <= i < |S| ==> |S[i]| == 32
    ensures r == -1 || (k <= r < |S| && Hit(S[r], name))
    decreases |S| - k
  {
    if k >= |S| then -1
    else if S[k][0] == END_MARK then DeleteScan(S, name, k / 16 * 16 + 16)
    else if S[k][11] != ATTR_LFN && Hit(S[k], name) then k
    else DeleteScan(S, name, k + 1)
  }

  /** In a proper directory the scan misses no slot that goes by the name. */
  lemma {:induction false} DeleteScanMisses(S: seq<Bytes>, name: Bytes, k: nat, i: nat)
    requires DirOK(S) && k <= i < |S| && DeleteScan(S, name, k) == -1
    ensures !Hit(S[i], name)
    decreases i - k
  {
    if k < i && S[k][0] != END_MARK { DeleteScanMisses(S, name, k + 1, i); }
  }

  /** Whether a slot that is no end mark is the one to delete. */
  method TestForDelete(e: Bytes, name: Bytes) returns (hit: bool)
    requires |e| == 32 && |name| == 11 && e[0] != END_MARK && IsBytes(e) && IsBytes(name)
    ensures hit == Deletable(e, name)
  {
    var same := MatchDosName(e, name);
    hit := e[0] != DELETED && e[11] != ATTR_LFN && same;
  }

  /** The slot that the deletion loop tests. */
  predicate Deletable(e: Bytes, name: Bytes)
    requires |e| == 32
  {
    e[11] != ATTR_LFN && Hit(e, name)
  }

  /** The deletion scan from slot `k` on gives `all`. */
  ghost predicate Deletes(b: Bytes, name: Bytes, k: nat, all: int) {
    DeleteScan(Slots(b), name, k) == all
  }

  /** One slot of the deletion loop; the next sector begins with slot `next`. */
  method DeleteSlot(b: Bytes, k: nat, next: nat, name: Bytes, ghost all: int) returns (r: Scan)
    requires k < |b| / 32 && next == k / 16 * 16 + 16 && |name| == 11 && IsBytes(b) && IsBytes(name)
    requires Deletes(b, name, k, all)
    ensures match r
      case Found(i) => i == all >= 0
      case End => Deletes(b, name, next, all)
      case More => Deletes(b, name, k + 1, all)
  {
    var e := SlotAt(b, k);
    SliceBytes(b, 32 * k, 32 * k + 32);
    assert e == Slots(b)[k];
    DeleteScanStep(Slots(b), name, k);
    if e[0] == END_MARK {
      return End;
    }
    var hit := TestForDelete(e, name);
    r := if hit then Found(k) else More;
  }

  lemma DeleteScanStep(S: seq<Bytes>, name: Bytes, k: nat)
    requires (forall i :: 0 <= i < |S| ==> |S[i]| == 32) && k < |S|
    ensures DeleteScan(S, name, k) ==
      if S[k][0] == END_MARK then DeleteScan(S, name, k / 16 * 16 + 16)
      else if Deletable(S[k], name) then k
      else DeleteScan(S, name, k + 1)
  {}

  /** The slot loop of fat32_delete_file over sector `i`. */
  method DeleteSector(b: Bytes, i: nat, name: Bytes, ghost all: int) returns (k: int)
    requires 512 * i + 512 <= |b| && |name| == 11 && IsBytes(b) && IsBytes(name) && Deletes(b, name, 16 * i, all)
    ensures if k != -1 then k == all else Deletes(b, name, 16 * (i + 1), all)
  {
    var j, next := 16 * i, 16 * (i + 1);
    while j < next
      invariant 16 * i <= j <= next && Deletes(b, name, j, all)
    {
      NextSector(i, j);
      var r := DeleteSlot(b, j, next, name, all);
      if r != More {
        return if r.Found? then r.index else -1;
      }
      j := j + 1;
    }
    k := -1;
  }

  /** The slot loops of fat32_delete_file over one cluster. */
  method ScanForDelete(b: Bytes, spc: int, name: Bytes) returns (k: int)
    requires |b| == 512 * spc && 0 < spc && |name| == 11 && IsBytes(b) && IsBytes(name)
    ensures k == DeleteScan(Slots(b), name, 0)
  {
    var i := 0;
    ghost var all := DeleteScan(Slots(b), name, 0);
    while i < spc
      invariant 0 <= i <= spc && Deletes(b, name, 16 * i, all)
    {
      k := DeleteSector(b, i, name, all);
      if k != -1 {
        return;
      }
      i := i + 1;
    }
    assert |Slots(b)| == 16 * i;
    k := -1;
  }

  lemma NextSector(i: int, k: int)
    requires 0 <= i && 16 * i <= k < 16 * (i + 1)
    ensures k / 16 * 16 + 16 == 16 * (i + 1)
  {}

  /** The slot loops that look for room: the first end mark or deleted slot of a cluster. */
  method ScanForRoom(b: Bytes, spc: int) returns (k: int)
    requires |b| == 512 * spc && 0 < spc
    ensures k == -1 ==> forall i :: 0 <= i < 16 * spc ==> Live(Slots(b)[i])
    ensures k != -1 ==> 0 <= k < 16 * spc && !Live(Slots(b)[k]) && forall i :: 0 <= i < k ==> Live(Slots(b)[i])
  {
    var i := 0;
    while i < spc
      invariant 0 <= i <= spc && |Slots(b)| == 16 * spc
      invariant forall j :: 0 <= j < 16 * i ==> Live(Slots(b)[j])
    {
      var j := 0;
      while j < 16
        invariant 0 <= j <= 16
        invariant forall l :: 0 <= l < 16 * i + j ==> Live(Slots(b)[l])
      {
        var e := SlotAt(b, 16 * i + j);
        assert e == Slots(b)[16 * i + j];
        if e[0] == END_MARK || e[0] == DELETED {
          return 16 * i + j;
        }
        j := j + 1;
      }
      i := i + 1;
    }
    k := -1;
  }

  /** `blank` with the characters from `start` to `i` in upper case at position `at`. */
  function Field(blank: Bytes, input: Bytes, start: int, at: int, i: int): Bytes
    requires 0 <= start <= i <= |input| && 0 <= at && at + (i - start) <= |blank|
  {
    blank[..at] + UpperAll(input[start..i]) + blank[at + (i - start)..]
  }

  /** One copying loop of to_dos_file_name: characters from `start` into the field at `at`. */
  method FillField(blank: Bytes, input: Bytes, start: int, at: int, room: int, stopAtDot: bool)
    returns (output: Bytes, i: int)
    requires 0 <= start <= |input| && 0 <= at && 0 <= room && at + room <= |blank|
    ensures i == start + TakeLen(input, start, room, stopAtDot)
    ensures output == Field(blank, input, start, at, i)
  {
    output, i := blank, start;
    FieldEmpty(blank, input, start, at);
    while i < |input| && !(stopAtDot && input[i] == DOT) && i - start < room
      invariant start <= i <= |input| && i - start <= room
      invariant i + TakeLen(input, i, room - (i - start), stopAtDot) == start + TakeLen(input, start, room, stopAtDot)
      invariant output == Field(blank, input, start, at, i)
    {
      FieldStep(blank, input, start, at, i);
      output := output[at + (i - start) := Upper(input[i])];
      i := i + 1;
    }
  }

  lemma FieldEmpty(blank: Bytes, input: Bytes, start: int, at: int)
    requires 0 <= start <= |input| && 0 <= at <= |blank|
    ensures Field(blank, input, start, at, start) == blank
  {
    assert UpperAll(input[start..start]) == [];
  }

  lemma FieldStep(blank: Bytes, input: Bytes, start: int, at: int, i: int)
    requires 0 <= start <= i < |input| && 0 <= at && at + (i - start) < |blank|
    ensures |Field(blank, input, start, at, i)| == |blank|
    ensures Field(blank, input, start, at, i)[at + (i - start) := Upper(input[i])] ==
      Field(blank, input, start, at, i + 1)
  {
    assert input[start..i] + [input[i]] == input[start..i + 1];
    assert UpperAll(input[start..i + 1]) == UpperAll(input[start..i]) + [Upper(input[i])];
  }

  /** to_dos_file_name: blanks, then up to eight characters to a dot, then up to three. */
  method ToDosFileName(input: Bytes) returns (output: Bytes)
    ensures output == DosName(input)
  {
    var i;
    output, i := CopyBase(input);
    if i < |input| && input[i] == DOT {
      output := CopyExtension(output, input, i);
    }
  }

  /** The first copying loop. */
  method CopyBase(input: Bytes) returns (output: Bytes, i: int)
    ensures i == TakeLen(input, 0, 8, true) && output == Base(input, i) + Spaces(3)
  {
    output, i := FillField(Spaces(11), input, 0, 0, 8, true);
    BaseField(input, i);
  }

  /** The second copying loop, behind the dot at `i`. */
  method CopyExtension(base: Bytes, input: Bytes, i: int) returns (output: Bytes)
    requires 0 <= i < |input| && i <= 8 && base == Base(input, i) + Spaces(3)
    ensures output == WithExtension(input, i, TakeLen(input, i + 1, 3, false))
  {
    var j;
    output, j := FillField(base, input, i + 1, 8, 3, false);
    ExtensionField(input, i, j);
  }

  lemma BaseField(input: Bytes, i: int)
    requires 0 <= i <= |input| && i <= 8
    ensures Field(Spaces(11), input, 0, 0, i) == Base(input, i) + Spaces(3)
  {
    assert input[0..i] == input[..i];
    BlankBase(UpperAll(input[..i]));
  }

  lemma BlankBase(t: Bytes)
    requires |t| <= 8
    ensures Spaces(11)[..0] + t + Spaces(11)[|t|..] == t + Spaces(8 - |t|) + Spaces(3)
  {}

  lemma ExtensionField(input: Bytes, i: int, j: int)
    requires 0 <= i < j <= |input| && i <= 8 && j - (i + 1) <= 3
    ensures Field(Base(input, i) + Spaces(3), input, i + 1, 8, j) == WithExtension(input, i, j - (i + 1))
  {
    BlankExtension(Base(input, i), j - (i + 1));
  }

  lemma BlankExtension(base: Bytes, n: int)
    requires |base| == 8 && 0 <= n <= 3
    ensures (base + Spaces(3))[..8] == base && (base + Spaces(3))[8 + n..] == Spaces(3 - n)
  {}

  /** A long-name slot carries the label bit, so both tests skip it. */
  lemma LfnIsLabel(e: Bytes)
    requires |e| == 32 && e[11] == ATTR_LFN
    ensures IsLabel(e)
  {}

  /** `out` holds the start of `all`, and `rest` what has not been looked at. */
  ghost predicate Copied(all: Bytes, out: Bytes, rest: Bytes, size: int) {
    if |out| < size then out + rest == all else out == Take(all, size)
  }

  lemma CopyStep(all: Bytes, out: Bytes, b: Bytes, rest: Bytes, size: int)
    requires |out| < size && Copied(all, out, b + rest, size)
    ensures Copied(all, Take(out + b, size), rest, size)
  {
    assert out + (b + rest) == (out + b) + rest;
  }

  lemma CopyDone(all: Bytes, out: Bytes, rest: Bytes, size: int)
    requires Copied(all, out, rest, size) && (|out| >= size || rest == [])
    ensures out == Take(all, size)
  {}

  lemma PadBytes(b: Bytes, off: int, n: int)
    requires IsBytes(b) && 0 <= off && 0 <= n
    ensures IsBytes(PadTo(Drop(b, off), n))
  {
    var r := PadTo(Drop(b, off), n);
    forall k | 0 <= k < n ensures IsByte(r, k) { if off + k < |b| { assert IsByte(b, off + k); } }
  }
}
