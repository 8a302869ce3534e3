/**
 Where table and clusters lie on the disk: which sectors the driver's writes to the
 table and to clusters change, and that they never meet.
 */
module FatDisk {
  import opened FatTable
  import opened FatDir

  /** First sector of the table, sectors per copy, one or two copies, sectors per cluster. */
  datatype Layout = Layout(fatStart: int, perFat: int, copies: int, spc: int)

  ghost predicate LayoutOK(l: Layout) {
    0 <= l.fatStart && 0 < l.perFat && (l.copies == 1 || l.copies == 2) && 0 < l.spc
  }

  /** data_start_sector */
  function DataStart(l: Layout): int { l.fatStart + l.copies * l.perFat }

  /** cluster_to_lba */
  function ClusterToLba(l: Layout, cluster: int): int {
    if cluster < 2 then 0 else DataStart(l) + (cluster - 2) * l.spc
  }

  datatype Content = Words(words: seq<int>) | Raw(bytes: Bytes) | Other

  /** What the driver's state says of sector `lba`. */
  function DiskSector(l: Layout, fat: seq<int>, mirror: seq<int>, data: seq<Bytes>, lba: int): Content
    requires LayoutOK(l) && |fat| == |mirror| == l.perFat * PER_SECTOR && Sized(data, 512 * l.spc)
  {
    var t := lba - l.fatStart;
    if 0 <= t < l.perFat then Words(fat[PER_SECTOR * t..PER_SECTOR * t + PER_SECTOR])
    else if l.perFat <= t < l.copies * l.perFat then
      Words(mirror[PER_SECTOR * (t - l.perFat)..PER_SECTOR * (t - l.perFat) + PER_SECTOR])
    else if lba >= DataStart(l) && ClusterAt(l, lba) < |data| then
      Raw(data[ClusterAt(l, lba)][512 * SectorIn(l, lba)..512 * SectorIn(l, lba) + 512])
    else Other
  }

  /** The cluster that a sector of the data area belongs to. */
  function ClusterAt(l: Layout, lba: int): (c: int)
    requires LayoutOK(l) && lba >= DataStart(l)
    ensures c >= 2
  {
    (lba - DataStart(l)) / l.spc + 2
  }

  function SectorIn(l: Layout, lba: int): (s: int)
    requires LayoutOK(l) && lba >= DataStart(l)
    ensures 0 <= s < l.spc
  {
    (lba - DataStart(l)) % l.spc
  }

  lemma {:induction false} NextMultiple(a: int, b: int, n: int)
    requires a < b && n > 0
    ensures a * n + n <= b * n
    decreases b - a
  {
    if b == a + 1 {
      assert b * n == a * n + n;
    } else {
      NextMultiple(a, b - 1, n);
      assert b * n == (b - 1) * n + n;
    }
  }

  /** The data begins behind the table copies, with cluster 2, and each cluster follows the one before. */
  lemma ClustersFollow(l: Layout, c: int)
    requires LayoutOK(l) && c >= 2
    ensures ClusterToLba(l, 2) == l.fatStart + l.perFat + (if l.copies == 2 then l.perFat else 0)
    ensures ClusterToLba(l, c + 1) == ClusterToLba(l, c) + l.spc
    ensures ClusterToLba(l, 0) == ClusterToLba(l, 1) == 0
  {
    assert (c + 1 - 2) * l.spc == (c - 2) * l.spc + l.spc;
  }

  /** Sector `s` of cluster `c` is behind the tables and belongs to that cluster. */
  lemma ClusterSector(l: Layout, c: int, s: int)
    requires LayoutOK(l) && c >= 2 && 0 <= s < l.spc
    ensures var lba := ClusterToLba(l, c) + s; lba >= DataStart(l) && ClusterAt(l, lba) == c && SectorIn(l, lba) == s
  {
    var x, n := (c - 2) * l.spc + s, l.spc;
    assert (c - 2) * n >= 0;
    Quotient(x, c - 2, s, n);
  }

  lemma Quotient(x: int, a: int, s: int, n: int)
    requires n > 0 && 0 <= s < n && x == a * n + s
    ensures x / n == a && x % n == s
  {
    var q := x / n;
    assert x == q * n + x % n;
    if q < a { NextMultiple(q, a, n); }
    if q > a { NextMultiple(a, q, n); }
  }

  /** A sector of the data area lies in the range of the cluster it belongs to. */
  lemma OwnSector(l: Layout, lba: int)
    requires LayoutOK(l) && lba >= DataStart(l)
    ensures lba == ClusterToLba(l, ClusterAt(l, lba)) + SectorIn(l, lba)
  {
    var x := lba - DataStart(l);
    assert x == x / l.spc * l.spc + x % l.spc;
  }

  /** Writing cluster `c` changes its own sectors, which lie behind the tables, to the new bytes ... */
  lemma DataWriteSectors(l: Layout, fat: seq<int>, mirror: seq<int>, data: seq<Bytes>, c: int, b: Bytes, s: int)
    requires LayoutOK(l) && |fat| == |mirror| == l.perFat * PER_SECTOR && Sized(data, 512 * l.spc)
    requires 2 <= c < |data| && |b| == 512 * l.spc && 0 <= s < l.spc
    ensures var lba := ClusterToLba(l, c) + s;
      lba >= DataStart(l) && DiskSector(l, fat, mirror, data[c := b], lba) == Raw(b[512 * s..512 * s + 512])
  {
    ClusterSector(l, c, s);
  }

  /** ... and no other sector. */
  lemma DataWriteOnly(l: Layout, fat: seq<int>, mirror: seq<int>, data: seq<Bytes>, c: int, b: Bytes, lba: int)
    requires LayoutOK(l) && |fat| == |mirror| == l.perFat * PER_SECTOR && Sized(data, 512 * l.spc)
    requires 2 <= c < |data| && |b| == 512 * l.spc && !(0 <= lba - ClusterToLba(l, c) < l.spc)
    ensures DiskSector(l, fat, mirror, data[c := b], lba) == DiskSector(l, fat, mirror, data, lba)
  {
    if lba >= DataStart(l) { OwnSector(l, lba); }
  }

  /** Writing an entry, in the second copy if there is one, changes the one sector of each copy that holds it. */
  lemma TableWriteSectors(l: Layout, fat: seq<int>, mirror: seq<int>, data: seq<Bytes>, c: int, v: int, lba: int)
    requires LayoutOK(l) && |fat| == |mirror| == l.perFat * PER_SECTOR && Sized(data, 512 * l.spc) && 2 <= c < |fat|
    requires lba != l.fatStart + c * 4 / 512 && (l.copies == 2 ==> lba != l.fatStart + l.perFat + c * 4 / 512)
    ensures var fat', mirror' := SetEntry(fat, c, v), if l.copies == 2 then SetEntry(mirror, c, v) else mirror;
      DiskSector(l, fat', mirror', data, lba) == DiskSector(l, fat, mirror, data, lba)
  {
    var t := lba - l.fatStart;
    assert c * 4 / 512 == c / PER_SECTOR;
    if 0 <= t < l.perFat { StretchKept(fat, SetEntry(fat, c, v), c, t); }
    if l.perFat <= t < l.copies * l.perFat { StretchKept(mirror, SetEntry(mirror, c, v), c, t - l.perFat); }
  }

  lemma StretchKept(fat: seq<int>, fat': seq<int>, c: int, t: int)
    requires |fat| == |fat'| && 0 <= t && PER_SECTOR * t + PER_SECTOR <= |fat| && 0 <= c && t != c / PER_SECTOR
    requires forall i :: 0 <= i < |fat| && i != c ==> fat'[i] == fat[i]
    ensures fat'[PER_SECTOR * t..PER_SECTOR * t + PER_SECTOR] == fat[PER_SECTOR * t..PER_SECTOR * t + PER_SECTOR]
  {}
}
