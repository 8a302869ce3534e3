/**
 Directories of fs/fat/fat32.c: clusters of 32-byte slots, the 8.3 names in them,
 the codec of a slot, and the scans that look up, place and remove an entry.
 */
module FatDir {
  const END_MARK: int := 0x00
  const DELETED: int := 0xE5
  const DOT: int := 46
  const SPACE: int := 32
  const ATTR_LFN: int := 0x0F
  const ATTR_DIR: int := 0x10
  const ATTR_FILE: int := 0x20

  type Bytes = seq<int>

  datatype Option<+T> = None | Some(value: T)

  // ----- 8.3 names -----

  function Upper(c: int): int {
    if 97 <= c <= 122 then c - 32 else c
  }

  /** How many characters of `t` from `i` go into a field of `room` more characters. */
  function TakeLen(t: Bytes, i: int, room: int, stopAtDot: bool): (n: int)
    requires 0 <= i <= |t|
    ensures 0 <= n <= |t| - i && (room >= 0 ==> n <= room)
    decreases |t| - i
  {
    if i == |t| || room <= 0 || (stopAtDot && t[i] == DOT) then 0 else 1 + TakeLen(t, i + 1, room - 1, stopAtDot)
  }

  function UpperAll(t: Bytes): (r: Bytes)
    ensures |r| == |t|
  {
    seq(|t|, i requires 0 <= i < |t| => Upper(t[i]))
  }

  function Spaces(n: int): (r: Bytes)
    ensures |r| == if n > 0 then n else 0
  {
    seq(if n > 0 then n else 0, _ => SPACE)
  }

  function DosName(t: Bytes): (r: Bytes)
    ensures |r| == 11
  {
    DosNameAt(t, TakeLen(t, 0, 8, true))
  }

  /** The base of `b` characters, blank-padded. */
  function Base(t: Bytes, b: int): (r: Bytes)
    requires 0 <= b <= |t| && b <= 8
    ensures |r| == 8
  {
    UpperAll(t[..b]) + Spaces(8 - b)
  }

  /** The base and `e` characters from behind the dot. */
  function WithExtension(t: Bytes, b: int, e: int): (r: Bytes)
    requires 0 <= b < |t| && b <= 8 && 0 <= e <= 3 && b + 1 + e <= |t|
    ensures |r| == 11
  {
    Base(t, b) + UpperAll(t[b + 1..b + 1 + e]) + Spaces(3 - e)
  }

  function DosNameAt(t: Bytes, b: int): (r: Bytes)
    requires 0 <= b <= |t| && b <= 8
    ensures |r| == 11
  {
    if b < |t| && t[b] == DOT then WithExtension(t, b, TakeLen(t, b + 1, 3, false)) else Base(t, b) + Spaces(3)
  }

  /** An 8.3 name starts neither with the end mark nor with a dot. */
  lemma DosNameStart(t: Bytes)
    requires forall i :: 0 <= i < |t| ==> t[i] != 0
    ensures DosName(t)[0] != END_MARK && DosName(t)[0] != DOT
  {
    var b := TakeLen(t, 0, 8, true);
    if b == 0 {
      assert DosName(t)[0] == SPACE;
    } else {
      assert DosName(t)[0] == Upper(t[0]) && t[0] != DOT;
    }
  }

  /** A base name longer than eight characters loses its extension. */
  lemma LongNameLosesExtension(base: Bytes, ext: Bytes)
    requires |base| > 8 && DOT !in base
    ensures DosName(base + [DOT] + ext) == DosName(base[..8])
  {
    TakeLenPlain(base + [DOT] + ext, 0, 8);
    TakeLenPlain(base[..8], 0, 8);
  }

  lemma {:induction false} TakeLenPlain(t: Bytes, i: int, room: int)
    requires 0 <= i && 0 <= room && i + room <= |t| && forall j :: i <= j < i + room ==> t[j] != DOT
    ensures TakeLen(t, i, room, true) == room
    decreases room
  {
    if room > 0 { TakeLenPlain(t, i + 1, room - 1); }
  }

  // ----- Slots -----

  function Name(e: Bytes): Bytes
    requires |e| == 32
  {
    e[..11]
  }

  function First(e: Bytes): int
    requires |e| == 32
  {
    (e[20] + 256 * e[21]) * 65536 + e[26] + 256 * e[27]
  }

  function Size(e: Bytes): int
    requires |e| == 32
  {
    e[28] + 256 * e[29] + 65536 * e[30] + 16777216 * e[31]
  }

  predicate IsLabel(e: Bytes)
    requires |e| == 32
  {
    e[11] / 8 % 2 == 1
  }

  predicate IsDirEntry(e: Bytes)
    requires |e| == 32
  {
    e[11] / 16 % 2 == 1
  }

  predicate Live(e: Bytes)
    requires |e| == 32
  {
    e[0] != END_MARK && e[0] != DELETED
  }

  /** A name that can be found: no byte is negative as a signed character. */
  predicate Findable(name: Bytes) {
    forall i :: 0 <= i < |name| ==> name[i] < 0x80
  }

  predicate IsByte(b: Bytes, i: int)
    requires 0 <= i < |b|
  {
    0 <= b[i] < 0x100
  }

  ghost predicate IsBytes(b: Bytes) { forall i {:trigger IsByte(b, i)} :: 0 <= i < |b| ==> IsByte(b, i) }

  lemma SliceBytes(b: Bytes, i: int, j: int)
    requires IsBytes(b) && 0 <= i <= j <= |b|
    ensures IsBytes(b[i..j])
  {
    forall k | 0 <= k < j - i ensures IsByte(b[i..j], k) { assert IsByte(b, i + k); }
  }

  lemma ConcatBytes(a: Bytes, b: Bytes)
    requires IsBytes(a) && IsBytes(b)
    ensures IsBytes(a + b)
  {
    forall k | 0 <= k < |a + b| ensures IsByte(a + b, k) {
      if k < |a| { assert IsByte(a, k); } else { assert IsByte(b, k - |a|); }
    }
  }

  /** The value of byte `c` as a signed character. */
  function Signed(c: int): int { if c >= 0x80 then c - 0x100 else c }

  /**
   match_dos_name compares unsigned bytes of the slot with signed characters of the
   name: it succeeds exactly on equal names without a byte of 0x80 or more.
   */
  lemma SignedMatch(e: Bytes, name: Bytes)
    requires |e| == 32 && |name| == 11 && IsBytes(e) && IsBytes(name)
    ensures (forall k :: 0 <= k < 11 ==> e[k] == Signed(name[k])) <==> Name(e) == name && Findable(name)
  {
    if Name(e) == name && Findable(name) {
      forall k | 0 <= k < 11 ensures e[k] == Signed(name[k]) { assert Name(e)[k] == e[k]; }
    }
    if forall k :: 0 <= k < 11 ==> e[k] == Signed(name[k]) {
      forall k | 0 <= k < 11 ensures Name(e)[k] == name[k] && name[k] < 0x80 {
        assert e[k] == Signed(name[k]) && IsByte(e, k) && IsByte(name, k);
      }
    }
  }

  /** A live slot that goes by a name, volume labels included. */
  predicate Hit(e: Bytes, name: Bytes)
    requires |e| == 32
  {
    Live(e) && Name(e) == name && Findable(name)
  }

  /** A live slot that lookup accepts under an 8.3 name. */
  predicate Matches(e: Bytes, name: Bytes)
    requires |e| == 32
  {
    Hit(e, name) && !IsLabel(e)
  }

  /** The entry the driver writes: everything not given is zero. */
  function MakeEntry(name: Bytes, attr: int, first: int, size: int): (e: Bytes)
    requires |name| == 11
    ensures |e| == 32
  {
    name + [attr, 0, 0, 0, 0, 0, 0, 0, 0] + [first / 65536 % 256, first / 16777216 % 256] + [0, 0, 0, 0]
    + [first % 256, first / 256 % 256] + [size % 256, size / 256 % 256, size / 65536 % 256, size / 16777216 % 256]
  }

  lemma FourBytes(x: int)
    requires 0 <= x < 0x1_0000_0000
    ensures x == x % 256 + 256 * (x / 256 % 256) + 65536 * (x / 65536 % 256) + 16777216 * (x / 16777216 % 256)
  {
    var a := x / 256;
    var b := a / 256;
    var c := b / 256;
    assert x / 65536 == b && x / 16777216 == c && c % 256 == c;
  }

  /** Reading back what was written. */
  lemma EntryRoundTrip(name: Bytes, attr: int, first: int, size: int)
    requires |name| == 11 && 0 <= first < 0x1_0000_0000 && 0 <= size < 0x1_0000_0000
    ensures var e := MakeEntry(name, attr, first, size);
      Name(e) == name && e[11] == attr && First(e) == first && Size(e) == size && e[0] == name[0]
  {
    FourBytes(first);
    FourBytes(size);
  }

  // ----- Directory contents -----

  function SlotAt(b: Bytes, k: int): (e: Bytes)
    requires 0 <= k && 32 * k + 32 <= |b|
    ensures |e| == 32
  {
    b[32 * k..32 * k + 32]
  }

  function Slots(b: Bytes): (S: seq<Bytes>)
    ensures |S| == |b| / 32 && forall k :: 0 <= k < |S| ==> |S[k]| == 32 && S[k] == SlotAt(b, k)
  {
    seq(|b| / 32, k requires 0 <= k < |b| / 32 => SlotAt(b, k))
  }

  function PutSlot(b: Bytes, k: int, e: Bytes): (r: Bytes)
    requires 0 <= k && 32 * k + 32 <= |b| && |e| == 32
    ensures |r| == |b|
  {
    b[..32 * k] + e + b[32 * k + 32..]
  }

  lemma SlotsAfterPut(b: Bytes, k: int, e: Bytes)
    requires 0 <= k && 32 * k + 32 <= |b| && |e| == 32
    ensures Slots(PutSlot(b, k, e)) == Slots(b)[k := e]
  {
    var r := PutSlot(b, k, e);
    forall i | 0 <= i < |b| / 32 ensures SlotAt(r, i) == if i == k then e else SlotAt(b, i) {}
  }

  ghost predicate Sized(data: seq<Bytes>, cb: int) {
    forall c :: 0 <= c < |data| ==> |data[c]| == cb
  }

  ghost predicate Within(ch: seq<int>, n: int) {
    forall i :: 0 <= i < |ch| ==> 0 <= ch[i] < n
  }

  /** All slots of the clusters `ch`, in order. */
  function DirSlots(data: seq<Bytes>, ch: seq<int>): (S: seq<Bytes>)
    requires Within(ch, |data|)
    ensures forall k :: 0 <= k < |S| ==> |S[k]| == 32
  {
    if ch == [] then [] else Slots(data[ch[0]]) + DirSlots(data, ch[1..])
  }

  /** The contents of the clusters `ch`, in order. */
  function Contents(data: seq<Bytes>, ch: seq<int>): Bytes
    requires Within(ch, |data|)
  {
    if ch == [] then [] else data[ch[0]] + Contents(data, ch[1..])
  }

  lemma {:induction false} DirSlotsConcat(data: seq<Bytes>, a: seq<int>, b: seq<int>)
    requires Within(a, |data|) && Within(b, |data|) && Within(a + b, |data|)
    ensures DirSlots(data, a + b) == DirSlots(data, a) + DirSlots(data, b)
  {
    if a == [] {
      assert a + b == b;
    } else {
      assert (a + b)[1..] == a[1..] + b;
      DirSlotsConcat(data, a[1..], b);
    }
  }

  lemma {:induction false} ContentsConcat(data: seq<Bytes>, a: seq<int>, b: seq<int>)
    requires Within(a, |data|) && Within(b, |data|) && Within(a + b, |data|)
    ensures Contents(data, a + b) == Contents(data, a) + Contents(data, b)
  {
    if a == [] {
      assert a + b == b;
    } else {
      assert (a + b)[1..] == a[1..] + b;
      ContentsConcat(data, a[1..], b);
    }
  }

  lemma {:induction false} DirSlotsFrame(data: seq<Bytes>, data': seq<Bytes>, ch: seq<int>)
    requires Within(ch, |data|) && |data'| == |data|
    requires forall i :: 0 <= i < |ch| ==> data'[ch[i]] == data[ch[i]]
    ensures DirSlots(data', ch) == DirSlots(data, ch) && Contents(data', ch) == Contents(data, ch)
  {
    if ch != [] {
      assert forall i :: 0 <= i < |ch| - 1 ==> ch[1..][i] == ch[i + 1];
      DirSlotsFrame(data, data', ch[1..]);
    }
  }

  lemma DirSlotsAround(data: seq<Bytes>, pre: seq<int>, c: int, post: seq<int>)
    requires Within(pre, |data|) && Within(post, |data|) && 0 <= c < |data| && Within(pre + [c] + post, |data|)
    ensures DirSlots(data, pre + [c] + post) == DirSlots(data, pre) + Slots(data[c]) + DirSlots(data, post)
  {
    assert [c][1..] == [] && DirSlots(data, [c]) == Slots(data[c]) + [];
    assert Within(pre + [c], |data|);
    DirSlotsConcat(data, pre + [c], post);
    DirSlotsConcat(data, pre, [c]);
  }

  lemma MiddleUpdate(a: seq<Bytes>, m: seq<Bytes>, b: seq<Bytes>, k: int, e: Bytes)
    requires 0 <= k < |m|
    ensures (a + m + b)[|a| + k] == m[k]
    ensures (a + m + b)[|a| + k := e] == a + m[k := e] + b
  {}

  /** Rewriting slot `k` of the cluster at position `ci` rewrites one slot of the directory. */
  lemma DirSlotsAfterPut(data: seq<Bytes>, ch: seq<int>, ci: int, k: int, e: Bytes)
    requires Within(ch, |data|) && 0 <= ci < |ch| && 0 <= k && 32 * k + 32 <= |data[ch[ci]]| && |e| == 32
    requires forall i :: 0 <= i < |ch| && i != ci ==> ch[i] != ch[ci]
    ensures var c := ch[ci];
      var pos := |DirSlots(data, ch[..ci])| + k;
      && pos < |DirSlots(data, ch)|
      && DirSlots(data, ch)[pos] == SlotAt(data[c], k)
      && DirSlots(data[c := PutSlot(data[c], k, e)], ch) == DirSlots(data, ch)[pos := e]
  {
    var c := ch[ci];
    var pre, post := ch[..ci], ch[ci + 1..];
    assert ch == pre + [c] + post;
    DirSlotsAround(data, pre, c, post);
    SlotsAfterPut(data[c], k, e);
    DirSlotsChanged(data, pre, c, post, PutSlot(data[c], k, e));
    MiddleUpdate(DirSlots(data, pre), Slots(data[c]), DirSlots(data, post), k, e);
  }

  /** Only the stretch of cluster `c` changes. */
  lemma DirSlotsChanged(data: seq<Bytes>, pre: seq<int>, c: int, post: seq<int>, b: Bytes)
    requires Within(pre, |data|) && Within(post, |data|) && 0 <= c < |data| && Within(pre + [c] + post, |data|)
    requires c !in pre && c !in post
    ensures DirSlots(data[c := b], pre + [c] + post) == DirSlots(data, pre) + Slots(b) + DirSlots(data, post)
  {
    DirSlotsAround(data[c := b], pre, c, post);
    DirSlotsFrame(data, data[c := b], pre);
    DirSlotsFrame(data, data[c := b], post);
  }

  // ----- Scanning -----

  datatype Scan = Found(index: int) | End | More

  /** The lookup scan from slot `i`. */
  function ScanFor(S: seq<Bytes>, name: Bytes, i: int): (r: Scan)
    requires 0 <= i <= |S| && forall k :: 0 <= k < |S| ==> |S[k]| == 32
    ensures r.Found? ==> i <= r.index < |S| && Matches(S[r.index], name)
    decreases |S| - i
  {
    if i == |S| then More
    else if S[i][0] == END_MARK then End
    else if Matches(S[i], name) then Found(i)
    else ScanFor(S, name, i + 1)
  }

  function Lookup(S: seq<Bytes>, name: Bytes): (r: Option<Bytes>)
    requires forall k :: 0 <= k < |S| ==> |S[k]| == 32
    ensures r.Some? ==> |r.value| == 32 && Matches(r.value, name)
  {
    var r := ScanFor(S, name, 0);
    if r.Found? then Some(S[r.index]) else None
  }

  lemma {:induction false} ScanConcat(a: seq<Bytes>, b: seq<Bytes>, name: Bytes, i: int)
    requires 0 <= i <= |a| && (forall k :: 0 <= k < |a| ==> |a[k]| == 32) && forall k :: 0 <= k < |b| ==> |b[k]| == 32
    ensures ScanFor(a + b, name, i) ==
      match ScanFor(a, name, i)
      case Found(k) => Found(k)
      case End => End
      case More => match ScanFor(b, name, 0) case Found(k) => Found(|a| + k) case End => End case More => More
    decreases |a| - i
  {
    if i == |a| {
      ScanShift(a, b, name, 0);
    } else {
      assert (a + b)[i] == a[i];
      ScanConcat(a, b, name, i + 1);
    }
  }

  lemma {:induction false} ScanShift(a: seq<Bytes>, b: seq<Bytes>, name: Bytes, j: int)
    requires 0 <= j <= |b| && (forall k :: 0 <= k < |a| ==> |a[k]| == 32) && forall k :: 0 <= k < |b| ==> |b[k]| == 32
    ensures ScanFor(a + b, name, |a| + j) ==
      match ScanFor(b, name, j) case Found(k) => Found(|a| + k) case End => End case More => More
    decreases |b| - j
  {
    if j < |b| {
      assert (a + b)[|a| + j] == b[j];
      ScanShift(a, b, name, j + 1);
    }
  }

  /** Slots behind the end mark are unused, names that can be found differ, and there are no long-name slots. */
  ghost predicate DirOK(S: seq<Bytes>) {
    && (forall k :: 0 <= k < |S| ==> |S[k]| == 32)
    && (forall i, j :: 0 <= i < j < |S| && S[i][0] == END_MARK ==> S[j][0] == END_MARK)
    && (forall i :: 0 <= i < |S| && Live(S[i]) ==> S[i][11] != ATTR_LFN)
    && (forall i, j :: 0 <= i < j < |S| && Live(S[i]) && Live(S[j]) && Findable(Name(S[i])) ==>
          Name(S[i]) != Name(S[j]))
  }

  /** In a proper directory lookup finds a matching slot wherever it is. */
  lemma {:induction false} ScanFinds(S: seq<Bytes>, name: Bytes, i: int, k: int)
    requires DirOK(S) && 0 <= i <= k < |S| && Matches(S[k], name)
    ensures ScanFor(S, name, i) == Found(k)
    decreases k - i
  {
    if i < k { ScanFinds(S, name, i + 1, k); }
  }

  lemma LookupFinds(S: seq<Bytes>, name: Bytes, k: int)
    requires DirOK(S) && 0 <= k < |S| && Matches(S[k], name)
    ensures Lookup(S, name) == Some(S[k])
  {
    ScanFinds(S, name, 0, k);
  }

  /** Rewriting a slot that neither before nor after goes by `n` does not change what `n` finds. */
  lemma LookupAfterUpdate(S: seq<Bytes>, k: int, e: Bytes, n: Bytes)
    requires DirOK(S) && 0 <= k < |S| && |e| == 32 && DirOK(S[k := e])
    requires !Matches(S[k], n) && !Matches(e, n)
    ensures Lookup(S[k := e], n) == Lookup(S, n)
  {
    var S' := S[k := e];
    var r, r' := ScanFor(S, n, 0), ScanFor(S', n, 0);
    if r.Found? {
      assert S'[r.index] == S[r.index];
      ScanFinds(S', n, 0, r.index);
    } else if r'.Found? {
      assert S'[r'.index] == S[r'.index];
      ScanFinds(S, n, 0, r'.index);
    }
  }

  lemma DirOKAfterDelete(S: seq<Bytes>, k: int)
    requires DirOK(S) && 0 <= k < |S| && Live(S[k])
    ensures DirOK(S[k := S[k][0 := DELETED]])
  {}

  /** A slot is free when it is the end mark or deleted; entries go into the first such slot. */
  ghost predicate FirstFree(S: seq<Bytes>, k: int) {
    && 0 <= k < |S| && (forall i :: 0 <= i < |S| ==> |S[i]| == 32)
    && !Live(S[k]) && forall i :: 0 <= i < k ==> Live(S[i])
  }

  lemma DirOKAfterAdd(S: seq<Bytes>, k: int, e: Bytes)
    requires DirOK(S) && FirstFree(S, k) && |e| == 32 && e[0] != END_MARK && e[11] != ATTR_LFN
    requires Live(e) ==> forall i :: 0 <= i < |S| ==> !Hit(S[i], Name(e))
    ensures DirOK(S[k := e])
  {}

  // ----- Bytes stay bytes -----

  ghost predicate AllBytes(data: seq<Bytes>) {
    forall c {:trigger IsBytes(data[c])} :: 0 <= c < |data| ==> IsBytes(data[c])
  }

  lemma PutSlotBytes(b: Bytes, k: int, e: Bytes)
    requires 0 <= k && 32 * k + 32 <= |b| && |e| == 32 && IsBytes(b) && IsBytes(e)
    ensures IsBytes(PutSlot(b, k, e))
  {
    SliceBytes(b, 0, 32 * k);
    SliceBytes(b, 32 * k + 32, |b|);
    assert b[0..32 * k] == b[..32 * k] && b[32 * k + 32..|b|] == b[32 * k + 32..];
    ConcatBytes(b[..32 * k], e);
    ConcatBytes(b[..32 * k] + e, b[32 * k + 32..]);
  }

  lemma UpperBytes(t: Bytes)
    requires IsBytes(t)
    ensures IsBytes(UpperAll(t))
  {
    forall k | 0 <= k < |t| ensures IsByte(UpperAll(t), k) { assert IsByte(t, k); }
  }

  lemma SpacesBytes(n: int)
    ensures IsBytes(Spaces(n))
  {}

  lemma BaseBytes(t: Bytes, b: int)
    requires IsBytes(t) && 0 <= b <= |t| && b <= 8
    ensures IsBytes(Base(t, b))
  {
    SliceBytes(t, 0, b);
    assert t[0..b] == t[..b];
    UpperBytes(t[..b]);
    SpacesBytes(8 - b);
    ConcatBytes(UpperAll(t[..b]), Spaces(8 - b));
  }

  lemma ExtensionBytes(t: Bytes, b: int, e: int)
    requires IsBytes(t) && 0 <= b < |t| && b <= 8 && 0 <= e <= 3 && b + 1 + e <= |t|
    ensures IsBytes(WithExtension(t, b, e))
  {
    BaseBytes(t, b);
    SliceBytes(t, b + 1, b + 1 + e);
    UpperBytes(t[b + 1..b + 1 + e]);
    SpacesBytes(3 - e);
    ConcatBytes(Base(t, b), UpperAll(t[b + 1..b + 1 + e]));
    ConcatBytes(Base(t, b) + UpperAll(t[b + 1..b + 1 + e]), Spaces(3 - e));
  }

  lemma DosNameBytes(t: Bytes)
    requires IsBytes(t)
    ensures IsBytes(DosName(t))
  {
    var b := TakeLen(t, 0, 8, true);
    if b < |t| && t[b] == DOT {
      ExtensionBytes(t, b, TakeLen(t, b + 1, 3, false));
    } else {
      BaseBytes(t, b);
      SpacesBytes(3);
      ConcatBytes(Base(t, b), Spaces(3));
    }
  }

  lemma MakeEntryBytes(name: Bytes, attr: int, first: int, size: int)
    requires |name| == 11 && IsBytes(name) && 0 <= attr < 0x100
    ensures IsBytes(MakeEntry(name, attr, first, size))
  {
    var e := MakeEntry(name, attr, first, size);
    forall k | 0 <= k < 32 ensures IsByte(e, k) {
      if k < 11 { assert IsByte(name, k) && e[k] == name[k]; }
    }
  }
}
