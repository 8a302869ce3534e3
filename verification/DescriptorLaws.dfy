/**
 What each descriptor call does, said without the functions that carry it out: which
 descriptor an open returns, what a close and an exit leave, what a byte read or
 written changes.
 */
module DescriptorLaws {
  import opened DescriptorSpec
  import opened DescriptorRuns
  import opened PipeRuns

  /** An open fails exactly if the file is missing and not to be made, all descriptors are taken, or all files are. */
  predicate CanOpen(s: State, t: int, found: bool)
    requires t in s.tables
  {
    && found && (exists k :: 3 <= k < |s.tables[t]| && s.tables[t][k] == -1)
    && (exists i :: 0 <= i < |s.files| && !s.files[i].inUse)
  }

  /** Otherwise the lowest free descriptor from 3 on names the lowest unused file, with these flags; all else stays. */
  lemma OpenMeans(s: State, t: int, found: bool, flags: int)
    requires t in s.tables
    ensures var fd, s' := OpenResult(s, t, found), Do(s, Open(t, found, flags));
      if !CanOpen(s, t, found) then fd == -1 && s' == s
      else
        && 3 <= fd < |s.tables[t]| && s.tables[t][fd] == -1 && (forall k :: 3 <= k < fd ==> s.tables[t][k] != -1)
        && t in s'.tables && |s'.tables[t]| == |s.tables[t]|
        && var i := s'.tables[t][fd];
           && 0 <= i < |s.files| && !s.files[i].inUse && (forall j :: 0 <= j < i ==> s.files[j].inUse)
           && s' == s.(tables := s.tables[t := s.tables[t][fd := i]], files := s'.files)
           && s'.files == s.files[i := KFile(true, 1, false, flags, s.files[i].pipe)]
  {
    FdLowest(s.tables[t], 3);
    FileLowest(s.files, 0);
  }

  lemma {:induction false} FdLowest(table: Table, k: nat)
    ensures var r := FreeFd(table, k);
      if r == -1 then forall j :: k <= j < |table| ==> table[j] != -1
      else k <= r < |table| && table[r] == -1 && forall j :: k <= j < r ==> table[j] != -1
    decreases |table| - k
  {
    if k < |table| && table[k] != -1 { FdLowest(table, k + 1); }
  }

  lemma {:induction false} FileLowest(files: seq<KFile>, i: nat)
    ensures var r := FreeFile(files, i);
      if r == -1 then forall j :: i <= j < |files| ==> files[j].inUse
      else i <= r < |files| && !files[r].inUse && forall j :: i <= j < r ==> files[j].inUse
    decreases |files| - i
  {
    if i < |files| && files[i].inUse { FileLowest(files, i + 1); }
  }

  /** A pipe needs two descriptors and two files; it gets the two lowest of each, reading end first. */
  lemma PipeMeans(s: State, t: int)
    requires t in s.tables
    ensures var (a, b), (i, j), s' := PipeFds(s, t), PipeFiles(s), Do(s, MakePipe(t));
      && (b == -1 || j == -1 ==> s' == s)
      && (b != -1 ==> 3 <= a < b < |s.tables[t]| && s.tables[t][a] == s.tables[t][b] == -1)
      && (b != -1 ==> forall k :: 3 <= k < b && k != a ==> s.tables[t][k] != -1)
      && (b == -1 ==> forall k, l :: 3 <= k < l < |s.tables[t]| ==> !(s.tables[t][k] == -1 && s.tables[t][l] == -1))
      && (j != -1 ==> 0 <= i < j < |s.files| && !s.files[i].inUse && !s.files[j].inUse)
      && (j != -1 ==> forall k :: 0 <= k < j && k != i ==> s.files[k].inUse)
      && (j == -1 ==> forall k, l :: 0 <= k < l < |s.files| ==> s.files[k].inUse || s.files[l].inUse)
  {
    FdLowest(s.tables[t], 3);
    FileLowest(s.files, 0);
    var a, i := FreeFd(s.tables[t], 3), FreeFile(s.files, 0);
    if a != -1 { FdLowest(s.tables[t], a + 1); }
    if i != -1 { FileLowest(s.files, i + 1); }
  }

  /** A close empties the one descriptor; one that is not open changes nothing. */
  lemma CloseMeans(s: State, exact: bool, t: int, fd: int)
    requires Inv(s, exact) && t in s.tables
    ensures var s', open := Do(s, Close(t, fd)), 0 <= fd < |s.tables[t]| && s.tables[t][fd] != -1;
      if open then s'.tables == s.tables[t := s.tables[t][fd := -1]] else s' == s
  {
    assert TableOK(s, t);
    if 0 <= fd < |s.tables[t]| { DoCloseKeeps(s, exact, t, fd); }
  }

  /** An exit leaves no table for the task, and all others as they are. */
  lemma ExitMeans(s: State, exact: bool, t: int)
    requires Inv(s, exact) && t in s.tables
    ensures Do(s, Exit(t)).tables.Keys == s.tables.Keys - {t}
    ensures forall u :: u in s.tables && u != t ==>
      u in Do(s, Exit(t)).tables && Do(s, Exit(t)).tables[u] == s.tables[u]
  {
    forall u | u in s.tables && u != t ensures u in DoExit(s, t).tables && DoExit(s, t).tables[u] == s.tables[u] {
      ClosedElsewhere(s, t, MAX_FDS, u);
    }
    ClosedOwners(s, t, MAX_FDS);
  }

  lemma {:induction false} ClosedOwners(s: State, t: int, k: nat)
    ensures ClosedTo(s, t, k).tables.Keys == s.tables.Keys
  {
    if k > 0 {
      ClosedOwners(s, t, k - 1);
      CloseOwners(ClosedTo(s, t, k - 1), t, k - 1);
    }
  }

  lemma CloseOwners(s: State, t: int, fd: int)
    ensures DoClose(s, t, fd).tables.Keys == s.tables.Keys
  {}

  /** A byte is read if there is one: the oldest; nothing else changes. */
  lemma ReadMeans(s: State, exact: bool, t: int, fd: int)
    requires Good(s, exact) && t in s.tables
    ensures var p, s' := PipeOf(s, t, fd), Do(s, Read(t, fd));
      if p == -1 || s.pipes[p].count == 0 then s' == s
      else
        && RingOK(s.pipes[p]) && p in s.taken && p in s'.pipes && RingOK(s'.pipes[p])
        && Content(s.pipes[p]) == [Content(s.pipes[p])[0]] + Content(s'.pipes[p])
        && s'.pipes[p].readers == s.pipes[p].readers && s'.pipes[p].writers == s.pipes[p].writers
        && s' == s.(pipes := s.pipes[p := s'.pipes[p]], taken := s.taken[p := s.taken[p] + [Content(s.pipes[p])[0]]])
  {
    var p := PipeOf(s, t, fd);
    if p != -1 {
      assert Flow(s, p);
      if s.pipes[p].count > 0 { TakeRemoves(s.pipes[p]); }
    }
  }

  /** A byte is written if there is a reader and room: it comes last; nothing else changes. */
  lemma WriteMeans(s: State, exact: bool, t: int, fd: int, b: int)
    requires Good(s, exact) && t in s.tables
    ensures var p, s' := PipeOf(s, t, fd), Do(s, Write(t, fd, b));
      if p == -1 || s.pipes[p].readers <= 0 || s.pipes[p].count == 4096 then s' == s
      else
        && RingOK(s.pipes[p]) && p in s.put && p in s'.pipes && RingOK(s'.pipes[p])
        && Content(s'.pipes[p]) == Content(s.pipes[p]) + [b]
        && s'.pipes[p].readers == s.pipes[p].readers && s'.pipes[p].writers == s.pipes[p].writers
        && s' == s.(pipes := s.pipes[p := s'.pipes[p]], put := s.put[p := s.put[p] + [b]])
  {
    var p := PipeOf(s, t, fd);
    if p != -1 {
      assert Flow(s, p);
      if s.pipes[p].readers > 0 && s.pipes[p].count < RING { PutAppends(s.pipes[p], b); }
    }
  }
}
