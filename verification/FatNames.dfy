/**
 What 8.3 names and directory slots look like, byte by byte, and when two names
 or two slots are the same.
 */
module FatNames {
  import opened FatTable
  import opened FatDir
  import opened FatVolume
  import opened FatSteps
  import opened FatPaths
  import opened FatLoops
  import opened FatWalk

  // ----- The 8.3 name of a text -----

  /** Character `k` of a field that holds `t`: a letter in upper case, any other as it is, a blank behind the end. */
  function FieldChar(t: Bytes, k: nat): int {
    if k >= |t| then 32 else if 'a' as int <= t[k] <= 'z' as int then t[k] - 32 else t[k]
  }

  /** `name` has `base` in its first eight bytes and `ext` in its last three. */
  ghost predicate Spells(name: Bytes, base: Bytes, ext: Bytes) {
    |name| == 11 && forall k :: 0 <= k < 11 ==> name[k] == if k < 8 then FieldChar(base, k) else FieldChar(ext, k - 8)
  }

  lemma UpperIs(t: Bytes, k: nat)
    requires k < |t|
    ensures UpperAll(t)[k] == FieldChar(t, k)
  {}

  lemma BaseIs(t: Bytes, b: int)
    requires 0 <= b <= |t| && b <= 8
    ensures forall k :: 0 <= k < 8 ==> Base(t, b)[k] == FieldChar(t[..b], k)
  {
    forall k | 0 <= k < 8 ensures Base(t, b)[k] == FieldChar(t[..b], k) { if k < b { UpperIs(t[..b], k); } }
  }

  lemma {:induction false} TakeLenTo(t: Bytes, i: int, room: int, stop: int)
    requires 0 <= i <= stop < |t| && stop - i <= room && t[stop] == DOT && forall j :: i <= j < stop ==> t[j] != DOT
    ensures TakeLen(t, i, room, true) == stop - i
    decreases stop - i
  {
    if i < stop { TakeLenTo(t, i + 1, room - 1, stop); }
  }

  /** Without a dot among them, as many characters as fit. */
  lemma {:induction false} TakeLenAll(t: Bytes, i: int, room: int, stopAtDot: bool)
    requires 0 <= i <= |t| && 0 <= room && (stopAtDot ==> forall j :: i <= j < |t| && j < i + room ==> t[j] != DOT)
    ensures TakeLen(t, i, room, stopAtDot) == if |t| - i <= room then |t| - i else room
    decreases room
  {
    if i < |t| && room > 0 { TakeLenAll(t, i + 1, room - 1, stopAtDot); }
  }

  /** A base of at most eight characters, a dot, and an extension: the extension is cut after three. */
  lemma NameWithDot(base: Bytes, ext: Bytes)
    requires |base| <= 8 && DOT !in base
    ensures Spells(DosName(base + [DOT] + ext), base, if |ext| <= 3 then ext else ext[..3])
  {
    var t, b := base + [DOT] + ext, |base|;
    TakeLenTo(t, 0, 8, b);
    TakeLenAll(t, b + 1, 3, false);
    var e := if |ext| <= 3 then |ext| else 3;
    assert t[..b] == base && t[b + 1..b + 1 + e] == if |ext| <= 3 then ext else ext[..3];
    ExtensionIs(t, b, e);
  }

  lemma ExtensionIs(t: Bytes, b: int, e: int)
    requires 0 <= b < |t| && b <= 8 && 0 <= e <= 3 && b + 1 + e <= |t|
    ensures Spells(WithExtension(t, b, e), t[..b], t[b + 1..b + 1 + e])
  {
    var x, n := t[b + 1..b + 1 + e], WithExtension(t, b, e);
    BaseIs(t, b);
    forall k | 0 <= k < 11 ensures n[k] == if k < 8 then FieldChar(t[..b], k) else FieldChar(x, k - 8) {
      if k < 8 { assert n[k] == Base(t, b)[k]; } else if k - 8 < e { UpperIs(x, k - 8); }
    }
  }

  /** A text without a dot among its first nine characters: the first eight, and no extension. */
  lemma NameWithoutDot(t: Bytes)
    requires forall j :: 0 <= j < |t| && j <= 8 ==> t[j] != DOT
    ensures Spells(DosName(t), if |t| <= 8 then t else t[..8], [])
  {
    var b := if |t| <= 8 then |t| else 8;
    TakeLenAll(t, 0, 8, true);
    assert t[..b] == if |t| <= 8 then t else t[..8];
    BaseIs(t, b);
  }

  /** Two texts of this form have the same 8.3 name exactly if they agree up to case and trailing blanks. */
  lemma SameName(base: Bytes, ext: Bytes, base': Bytes, ext': Bytes)
    requires |base| <= 8 && DOT !in base && |ext| <= 3 && |base'| <= 8 && DOT !in base' && |ext'| <= 3
    ensures DosName(base + [DOT] + ext) == DosName(base' + [DOT] + ext') <==>
      && (forall k :: 0 <= k < 8 ==> FieldChar(base, k) == FieldChar(base', k))
      && (forall k :: 0 <= k < 3 ==> FieldChar(ext, k) == FieldChar(ext', k))
  {
    NameWithDot(base, ext);
    NameWithDot(base', ext');
    SpelledSame(DosName(base + [DOT] + ext), DosName(base' + [DOT] + ext'), base, ext, base', ext');
  }

  lemma SpelledSame(n: Bytes, n': Bytes, base: Bytes, ext: Bytes, base': Bytes, ext': Bytes)
    requires Spells(n, base, ext) && Spells(n', base', ext')
    ensures n == n' <==>
      && (forall k :: 0 <= k < 8 ==> FieldChar(base, k) == FieldChar(base', k))
      && (forall k :: 0 <= k < 3 ==> FieldChar(ext, k) == FieldChar(ext', k))
  {
    if n == n' {
      forall k | 0 <= k < 8 ensures FieldChar(base, k) == FieldChar(base', k) { assert n[k] == n'[k]; }
      forall k | 0 <= k < 3 ensures FieldChar(ext, k) == FieldChar(ext', k) { assert n[8 + k] == n'[8 + k]; }
    }
  }

  /** The same letter, in either case, or the same character. */
  predicate SameUpToCase(c: int, d: int) {
    || c == d
    || ('a' as int <= c <= 'z' as int && d == c - 32)
    || ('a' as int <= d <= 'z' as int && c == d - 32)
  }

  /** Without blanks: only texts that are equal up to case share a name. */
  lemma NamesApart(base: Bytes, ext: Bytes, base': Bytes, ext': Bytes)
    requires |base| <= 8 && DOT !in base && |ext| <= 3 && |base'| <= 8 && DOT !in base' && |ext'| <= 3
    requires SPACE !in base && SPACE !in ext && SPACE !in base' && SPACE !in ext'
    requires DosName(base + [DOT] + ext) == DosName(base' + [DOT] + ext')
    ensures |base| == |base'| && forall k :: 0 <= k < |base| ==> SameUpToCase(base[k], base'[k])
    ensures |ext| == |ext'| && forall k :: 0 <= k < |ext| ==> SameUpToCase(ext[k], ext'[k])
  {
    SameName(base, ext, base', ext');
    FieldApart(base, base', 8);
    FieldApart(ext, ext', 3);
  }

  lemma FieldApart(t: Bytes, t': Bytes, n: nat)
    requires |t| <= n && |t'| <= n && SPACE !in t && SPACE !in t'
    requires forall k :: 0 <= k < n ==> FieldChar(t, k) == FieldChar(t', k)
    ensures |t| == |t'| && forall k :: 0 <= k < |t| ==> SameUpToCase(t[k], t'[k])
  {
    assert |t| < n ==> FieldChar(t, |t|) == FieldChar(t', |t|);
    assert |t'| < n ==> FieldChar(t, |t'|) == FieldChar(t', |t'|);
    assert forall k :: 0 <= k < |t| ==> t[k] in t;
    assert forall k :: 0 <= k < |t'| ==> t'[k] in t';
    forall k | 0 <= k < |t| ensures SameUpToCase(t[k], t'[k]) { assert FieldChar(t, k) == FieldChar(t', k); }
  }

  /** A blank at the end is lost: "A" and "A " are the same file. */
  lemma BlankIsLost()
    ensures DosName(['A' as int]) == DosName(['A' as int, ' ' as int])
  {
    var a, b := ['A' as int], ['A' as int, ' ' as int];
    NameWithoutDot(a);
    NameWithoutDot(b);
    SpelledSame(DosName(a), DosName(b), a, [], b, []);
  }

  // ----- The bytes of a slot -----

  /** Where the fields of a new entry are: low byte first, the first cluster in two halves, and zeros elsewhere. */
  lemma EntryLayout(name: Bytes, attr: int, first: int, size: int)
    requires |name| == 11 && 0 <= first < 0x1_0000_0000 && 0 <= size < 0x1_0000_0000
    ensures var e := MakeEntry(name, attr, first, size);
      && (forall k :: 0 <= k < 11 ==> e[k] == name[k]) && e[11] == attr
      && (forall k :: 12 <= k < 20 || 22 <= k < 26 ==> e[k] == 0)
      && first == e[26] + 0x100 * e[27] + 0x1_0000 * e[20] + 0x100_0000 * e[21]
      && size == e[28] + 0x100 * e[29] + 0x1_0000 * e[30] + 0x100_0000 * e[31]
      && forall k :: 20 <= k < 32 ==> 0 <= e[k] < 0x100
  {
    FourBytes(first);
    FourBytes(size);
  }

  /** A new file has the archive attribute, a new directory the directory attribute. */
  lemma NewAttribute(name: Bytes, isDir: bool, ch: seq<int>, size: int)
    requires |name| == 11 && |ch| > 0
    ensures NewEntry(name, isDir, ch, size)[11] == if isDir then 0x10 else 0x20
  {}

  /** What is read from a slot: attribute bit 3 marks a volume label, bit 4 a directory. */
  lemma SlotFields(e: Bytes, high: nat, mid: nat, low: nat)
    requires |e| == 32 && e[11] == 32 * high + 8 * mid + low && mid < 4 && low < 8
    ensures IsLabel(e) <==> mid == 1 || mid == 3
    ensures IsDirEntry(e) <==> mid == 2 || mid == 3
    ensures Size(e) == e[28] + 0x100 * e[29] + 0x1_0000 * e[30] + 0x100_0000 * e[31]
    ensures First(e) == e[26] + 0x100 * e[27] + 0x1_0000 * e[20] + 0x100_0000 * e[21]
  {
    assert e[11] / 8 == 4 * high + mid;
    assert e[11] / 16 == 2 * high + mid / 2;
  }

  // ----- What the scans find -----

  /** The lookup takes the first slot that matches, and no slot behind an end mark. */
  lemma {:induction false} ScanTakes(S: seq<Bytes>, name: Bytes, i: nat)
    requires i <= |S| && forall k :: 0 <= k < |S| ==> |S[k]| == 32
    ensures ScannedTo(S, name, i, ScanFor(S, name, i))
    decreases |S| - i
  {
    if i < |S| && S[i][0] != 0 && !SlotFits(S[i], name) { ScanTakes(S, name, i + 1); }
  }

  ghost predicate ScannedTo(S: seq<Bytes>, name: Bytes, i: nat, r: Scan)
    requires forall k :: 0 <= k < |S| ==> |S[k]| == 32
  {
    match r
    case Found(k) => i <= k < |S| && SlotFits(S[k], name) && PassedBy(S, name, i, k)
    case End => exists k :: i <= k < |S| && S[k][0] == 0 && PassedBy(S, name, i, k)
    case More => i <= |S| && PassedBy(S, name, i, |S|)
  }

  /** No slot from `i` to `k` is an end mark or fits the name. */
  ghost predicate PassedBy(S: seq<Bytes>, name: Bytes, i: nat, k: int)
    requires k <= |S| && forall j :: 0 <= j < |S| ==> |S[j]| == 32
  {
    forall j :: i <= j < k ==> S[j][0] != 0 && !SlotFits(S[j], name)
  }

  /** A slot in use, not a volume label, whose eleven name bytes are the name, all below 0x80. */
  predicate SlotFits(e: Bytes, name: Bytes)
    requires |e| == 32
  {
    e[0] != 0 && e[0] != 0xE5 && e[11] / 8 % 2 == 0 && e[..11] == name && forall k :: 0 <= k < |name| ==> name[k] < 0x80
  }

  /** The slot has no end mark before it in its sector of sixteen, and is none. */
  ghost predicate InSight(S: seq<Bytes>, k: nat)
    requires k < |S| && forall i :: 0 <= i < |S| ==> |S[i]| == 32
  {
    forall j :: k / 16 * 16 <= j <= k ==> S[j][0] != 0
  }

  /** A slot whose eleven name bytes are the name, all below 0x80; a volume label, but no piece of a long name. */
  predicate Removable(e: Bytes, name: Bytes)
    requires |e| == 32
  {
    e[0] != 0xE5 && e[11] != 0x0F && e[..11] == name && forall k :: 0 <= k < |name| ==> name[k] < 0x80
  }

  ghost predicate Seen(S: seq<Bytes>, name: Bytes, k: nat)
    requires k < |S| && forall i :: 0 <= i < |S| ==> |S[i]| == 32
  {
    InSight(S, k) && Removable(S[k], name)
  }

  /** The deletion takes the first slot of the name that it gets to see. */
  lemma {:induction false} DeleteTakes(S: seq<Bytes>, name: Bytes, k: nat)
    requires forall i :: 0 <= i < |S| ==> |S[i]| == 32
    requires forall j :: k / 16 * 16 <= j < k && j < |S| ==> S[j][0] != 0
    ensures DeleteScan(S, name, k) != -1 ==> k <= DeleteScan(S, name, k) < |S| && Seen(S, name, DeleteScan(S, name, k))
    ensures forall i {:trigger Seen(S, name, i)} ::
      k <= i < |S| && (DeleteScan(S, name, k) == -1 || i < DeleteScan(S, name, k)) ==> !Seen(S, name, i)
    decreases |S| - k
  {
    if k < |S| {
      if S[k][0] == 0 {
        DeleteTakes(S, name, k / 16 * 16 + 16);
        forall i | k <= i < |S| && i < k / 16 * 16 + 16 ensures !Seen(S, name, i) { HiddenBy(S, k, i); }
      } else if !Removable(S[k], name) {
        DeleteTakes(S, name, k + 1);
      } else {
        assert InSight(S, k);
      }
    }
  }

  lemma HiddenBy(S: seq<Bytes>, k: nat, i: nat)
    requires k <= i < |S| && i < k / 16 * 16 + 16 && (forall j :: 0 <= j < |S| ==> |S[j]| == 32) && S[k][0] == 0
    ensures !InSight(S, i)
  {
    assert i / 16 * 16 <= k <= i;
  }

  ghost predicate OnDisk(v: Vol, w: seq<int>) {
    |v.data| == |v.fat| && forall i :: 0 <= i < |w| ==> 0 <= w[i] < |v.data|
  }

  /** Searching the clusters `w` in turn, `found` is the slot taken in the first that has one of the name. */
  ghost predicate DeletedAlong(v: Vol, w: seq<int>, name: Bytes, found: Option<(int, int)>)
    requires OnDisk(v, w)
  {
    match found
    case None => NoneIn(v, w, |w|, name)
    case Some((d, k)) =>
      exists i :: 0 <= i < |w| && w[i] == d && NoneIn(v, w, i, name) && DeletedIn(v, d, name) == k != -1
  }

  function DeletedIn(v: Vol, c: int, name: Bytes): int
    requires 0 <= c < |v.data|
  {
    DeleteScan(Slots(v.data[c]), name, 0)
  }

  ghost predicate NoneIn(v: Vol, w: seq<int>, n: int, name: Bytes)
    requires OnDisk(v, w) && n <= |w|
  {
    forall i :: 0 <= i < n ==> DeletedIn(v, w[i], name) == -1
  }

  lemma DeletedMore(v: Vol, c: int, u: seq<int>, name: Bytes, found: Option<(int, int)>)
    requires OnDisk(v, u) && 0 <= c < |v.data| && DeletedAlong(v, u, name, found) && DeletedIn(v, c, name) == -1
    ensures DeletedAlong(v, [c] + u, name, found)
  {
    var w := [c] + u;
    if found.Some? {
      var i :| 0 <= i < |u| && u[i] == found.value.0 && NoneIn(v, u, i, name);
      assert w[i + 1] == u[i] && NoneIn(v, w, i + 1, name);
    }
  }

  /** The deletion searches the clusters of the walk in turn. */
  lemma {:induction false} DeletesAlong(v: Vol, c: int, limit: int, name: Bytes)
    requires |v.data| == |v.fat| < EOC_MIN
    ensures DeletedAlong(v, Walk(v.fat, c, limit), name, DeleteSearch(v, c, limit, name))
    decreases limit
  {
    if 2 <= c < |v.fat| && limit > 0 {
      var w, next := Walk(v.fat, c, limit), Val(v.fat[c]);
      assert w[0] == c;
      if DeletedIn(v, c, name) != -1 {
        assert NoneIn(v, w, 0, name);
      } else if next != c && next >= 2 {
        DeletesAlong(v, next, limit - 1, name);
        DeletedMore(v, c, Walk(v.fat, next, limit - 1), name, DeleteSearch(v, next, limit - 1, name));
      }
    }
  }

  /** `found` is the first slot of the clusters `w` that is not taken. */
  ghost predicate RoomIn(v: Vol, w: seq<int>, found: Option<(int, int)>)
    requires OnDisk(v, w)
  {
    match found
    case None => FullTo(v, w, |w|)
    case Some((d, k)) => exists i :: 0 <= i < |w| && w[i] == d && FullTo(v, w, i) && FirstRoom(v.data[d], k)
  }

  ghost predicate FullTo(v: Vol, w: seq<int>, n: int)
    requires OnDisk(v, w) && n <= |w|
  {
    forall i :: 0 <= i < n ==> AllTaken(v.data[w[i]])
  }

  ghost predicate FirstRoom(b: Bytes, k: int) {
    0 <= k < |Slots(b)| && !Taken(Slots(b)[k]) && forall j :: 0 <= j < k ==> Taken(Slots(b)[j])
  }

  ghost predicate AllTaken(b: Bytes) { forall k :: 0 <= k < |Slots(b)| ==> Taken(Slots(b)[k]) }

  lemma RoomMore(v: Vol, c: int, u: seq<int>, found: Option<(int, int)>)
    requires OnDisk(v, u) && 0 <= c < |v.data| && RoomIn(v, u, found) && AllTaken(v.data[c])
    ensures RoomIn(v, [c] + u, found)
  {
    var w := [c] + u;
    if found.Some? {
      var i :| 0 <= i < |u| && u[i] == found.value.0 && FullTo(v, u, i);
      assert w[i + 1] == u[i] && FullTo(v, w, i + 1);
    }
  }

  /** The search for room goes along the walk, too. */
  lemma {:induction false} RoomAlong(v: Vol, c: int, limit: int)
    requires |v.data| == |v.fat| < EOC_MIN
    ensures RoomIn(v, Walk(v.fat, c, limit), RoomSearch(v, c, limit))
    decreases limit
  {
    if 2 <= c < |v.fat| && limit > 0 {
      var w, next := Walk(v.fat, c, limit), Val(v.fat[c]);
      assert w[0] == c;
      RoomScanIs(v.data[c]);
      if RoomScan(Slots(v.data[c]), 0) != -1 {
        assert FullTo(v, w, 0);
      } else if next != c && next >= 2 {
        RoomAlong(v, next, limit - 1);
        RoomMore(v, c, Walk(v.fat, next, limit - 1), RoomSearch(v, next, limit - 1));
      }
    }
  }

  lemma RoomScanIs(b: Bytes)
    ensures var r := RoomScan(Slots(b), 0); if r == -1 then AllTaken(b) else FirstRoom(b, r)
  {}

  /** A slot is taken unless its first byte is 0 or 0xE5. */
  predicate Taken(e: Bytes)
    requires |e| == 32
  {
    e[0] != 0 && e[0] != 0xE5
  }

  /** A slot with first cluster 0 leads to the root directory; any other to its own cluster. */
  lemma EntryLeadsTo(v: Vol, p: Names, name: Bytes, e: Bytes)
    requires |v.data| == |v.fat| && Resolve(v, p).Some? && Entry(v, Resolve(v, p).value.cluster, name) == Some(e)
    ensures Resolve(v, p + [name]).Some?
    ensures var n := Resolve(v, p + [name]).value;
      && n.cluster == (if First(e) == 0 then v.g.root else First(e)) && n.isDir == IsDirEntry(e) && n.size == Size(e)
  {
    ResolveSnoc(v, p, name);
  }

  /** The bytes of a cluster: the data, and zeros behind it. */
  lemma PaddedWith(b: Bytes, n: nat, k: nat)
    requires k < n
    ensures PadTo(b, n)[k] == if k < |b| then b[k] else 0
  {}
}
