/**
 Open files, pipes and descriptor tables (fs/fd.c and the descriptor part of
 create_process and exit_process in kernel/task/task.c) as one state machine:
 a step per system call, and per loop iteration for pipe reads and writes.
 */
module DescriptorSpec {
  const MAX_FDS: int := 16
  const MAX_FILES: int := 256
  const FIRST_FD: int := 3
  const RING: int := 4096
  const O_RDONLY: int := 0
  const O_WRONLY: int := 1

  datatype KFile = KFile(inUse: bool, refcount: int, isPipe: bool, mode: int, pipe: int)

  datatype Pipe = Pipe(buffer: seq<int>, head: int, tail: int, count: int, readers: int, writers: int)

  type Table = seq<int>

  /**
   `tables` maps a task to its descriptor table, `pipes` an allocated pipe to its data.
   `freed`, `put` and `taken` record what was freed, written and read, pipe by pipe.
   */
  datatype State = State(files: seq<KFile>, tables: map<int, Table>, pipes: map<int, Pipe>, nextPid: int, nextPipe: int,
                         freed: seq<int>, put: map<int, seq<int>>, taken: map<int, seq<int>>)

  // ----- References -----

  /** The descriptor slots that name file `i`. */
  function Refs(tables: map<int, Table>, i: int): set<(int, int)> {
    set t, k | t in tables && 0 <= k < |tables[t]| && tables[t][k] == i :: (t, k)
  }

  lemma RefsElsewhere(tables: map<int, Table>, t: int, k: int, b: int, i: int)
    requires t in tables && 0 <= k < |tables[t]|
    ensures Refs(tables[t := tables[t][k := b]], i) - {(t, k)} == Refs(tables, i) - {(t, k)}
  {
    var tables' := tables[t := tables[t][k := b]];
    forall x | x in Refs(tables', i) - {(t, k)} ensures x in Refs(tables, i) {
      assert tables'[x.0][x.1] == tables[x.0][x.1];
    }
    forall x | x in Refs(tables, i) - {(t, k)} ensures x in Refs(tables', i) {
      assert tables'[x.0][x.1] == tables[x.0][x.1];
    }
  }

  lemma RefsUpdate(tables: map<int, Table>, t: int, k: int, b: int, i: int)
    requires t in tables && 0 <= k < |tables[t]|
    ensures var tables' := tables[t := tables[t][k := b]];
      |Refs(tables', i)| == |Refs(tables, i)| - (if tables[t][k] == i then 1 else 0) + (if b == i then 1 else 0)
  {
    var tables' := tables[t := tables[t][k := b]];
    RefsElsewhere(tables, t, k, b, i);
    MinusSize(Refs(tables, i), (t, k));
    MinusSize(Refs(tables', i), (t, k));
  }

  lemma MinusSize<T>(R: set<T>, x: T)
    ensures |R| == |R - {x}| + if x in R then 1 else 0
  {
    if x in R { assert R == (R - {x}) + {x}; } else { assert R - {x} == R; }
  }

  lemma RefsRemove(tables: map<int, Table>, t: int, i: int)
    requires t in tables
    ensures |Refs(tables - {t}, i)| <= |Refs(tables, i)|
  {
    assert Refs(tables - {t}, i) <= Refs(tables, i);
    SubsetSize(Refs(tables - {t}, i), Refs(tables, i));
  }

  lemma {:induction false} SubsetSize<T>(a: set<T>, b: set<T>)
    requires a <= b
    ensures |a| <= |b|
  {
    if a != {} {
      var x :| x in a;
      SubsetSize(a - {x}, b - {x});
    }
  }

  lemma RefsNone(tables: map<int, Table>, i: int)
    requires forall t, k :: t in tables && 0 <= k < |tables[t]| ==> tables[t][k] != i
    ensures Refs(tables, i) == {}
  {}

  lemma RefsNew(tables: map<int, Table>, t: int, n: int, i: int)
    requires t !in tables && i != -1 && n >= 0
    ensures Refs(tables[t := seq(n, _ => -1)], i) == Refs(tables, i)
  {
    var tables' := tables[t := seq(n, _ => -1)];
    forall x | x in Refs(tables', i) ensures x in Refs(tables, i) { assert x.0 != t; }
    forall x | x in Refs(tables, i) ensures x in Refs(tables', i) { assert tables'[x.0] == tables[x.0]; }
  }

  // ----- The invariant -----

  predicate IsEnd(f: KFile, p: int, reading: bool) {
    f.inUse && f.isPipe && f.pipe == p && (f.mode == O_RDONLY) == reading
  }

  /**
   A file in use is referred to no more often than counted (exactly as often, where `exact`), and
   its pipe is allocated.
   */
  ghost predicate FileOK(s: State, exact: bool, i: int)
    requires 0 <= i < |s.files|
  {
    s.files[i].inUse ==>
      && 1 <= s.files[i].refcount && |Refs(s.tables, i)| <= s.files[i].refcount
      && (exact ==> |Refs(s.tables, i)| == s.files[i].refcount)
      && (s.files[i].isPipe ==> s.files[i].pipe in s.pipes)
  }

  /** `n` is the reference count of the one reading (or writing) end of pipe `p`, or 0 without such an end. */
  ghost predicate EndsOK(files: seq<KFile>, p: int, reading: bool, n: int) {
    && 0 <= n
    && (forall i :: 0 <= i < |files| && IsEnd(files[i], p, reading) ==> files[i].refcount == n)
    && (n > 0 ==> exists i :: 0 <= i < |files| && IsEnd(files[i], p, reading))
    && (forall i, j :: 0 <= i < j < |files| ==> !(IsEnd(files[i], p, reading) && IsEnd(files[j], p, reading)))
  }

  /** Readers and writers of a pipe are the reference counts of its two ends. */
  ghost predicate PipeOK(s: State, p: int)
    requires p in s.pipes
  {
    && EndsOK(s.files, p, true, s.pipes[p].readers) && EndsOK(s.files, p, false, s.pipes[p].writers)
    && s.pipes[p].readers + s.pipes[p].writers > 0
    && p < s.nextPipe
  }

  ghost predicate TableOK(s: State, t: int)
    requires t in s.tables
  {
    && |s.tables[t]| == MAX_FDS && t < s.nextPid
    && forall k :: 0 <= k < MAX_FDS ==>
      s.tables[t][k] == -1 || (0 <= s.tables[t][k] < |s.files| && s.files[s.tables[t][k]].inUse)
  }

  ghost predicate Inv(s: State, exact: bool) {
    && |s.files| == MAX_FILES
    && (forall i {:trigger FileOK(s, exact, i)} :: 0 <= i < |s.files| ==> FileOK(s, exact, i))
    && (forall p {:trigger PipeOK(s, p)} :: p in s.pipes ==> PipeOK(s, p))
    && (forall t {:trigger TableOK(s, t)} :: t in s.tables ==> TableOK(s, t))
  }

  // ----- Steps on one descriptor slot -----

  /** One more, or one less, holder of file `i`; what fd_inherit and the redirections do to the counts. */
  function Count(s: State, i: int, delta: int): State
    requires 0 <= i < |s.files|
  {
    var f := s.files[i];
    var s1 := s.(files := s.files[i := f.(refcount := f.refcount + delta)]);
    if f.isPipe && f.pipe in s.pipes then
      var d := s.pipes[f.pipe];
      var d' := if f.mode == O_RDONLY then d.(readers := d.readers + delta) else d.(writers := d.writers + delta);
      s1.(pipes := s.pipes[f.pipe := d'])
    else s1
  }

  function SetSlot(s: State, t: int, k: int, i: int): State
    requires t in s.tables && 0 <= k < |s.tables[t]|
  {
    s.(tables := s.tables[t := s.tables[t][k := i]])
  }

  /** Slot `k` of task `t`, so far empty, comes to name file `i` (or stays empty). */
  function Attach(s: State, t: int, k: int, i: int): State
    requires t in s.tables && 0 <= k < |s.tables[t]| && (i == -1 || 0 <= i < |s.files|)
  {
    SetSlot(if i == -1 then s else Count(s, i, 1), t, k, i)
  }

  /** Slot `k` gives up its file without closing it (the redirections in create_process). */
  function Detach(s: State, t: int, k: int): State
    requires t in s.tables && 0 <= k < |s.tables[t]| && (s.tables[t][k] == -1 || 0 <= s.tables[t][k] < |s.files|)
  {
    var i := s.tables[t][k];
    SetSlot(if i == -1 then s else Count(s, i, -1), t, k, -1)
  }

  /** The end of sys_close: an unreferenced file is released and a pipe without ends is freed. */
  function Release(s: State, i: int): State
    requires 0 <= i < |s.files|
  {
    var f := s.files[i];
    var s1 := if f.isPipe && f.pipe in s.pipes && s.pipes[f.pipe].readers <= 0 && s.pipes[f.pipe].writers <= 0
              then s.(pipes := s.pipes - {f.pipe}, freed := s.freed + [f.pipe]) else s;
    var p := if f.isPipe && f.pipe !in s1.pipes then -1 else f.pipe;
    s1.(files := s1.files[i := f.(inUse := f.refcount > 0, pipe := p)])
  }

  /** sys_close on a valid descriptor. */
  function CloseSlot(s: State, t: int, k: int): State
    requires t in s.tables && 0 <= k < |s.tables[t]| && 0 <= s.tables[t][k] < |s.files|
  {
    Release(Detach(s, t, k), s.tables[t][k])
  }

  // ----- What these steps keep -----

  lemma EndsCount(files: seq<KFile>, i: int, delta: int, p: int, reading: bool, n: int)
    requires EndsOK(files, p, reading, n) && 0 <= i < |files| && files[i].inUse && 0 < files[i].refcount + delta
    ensures EndsOK(files[i := files[i].(refcount := files[i].refcount + delta)], p, reading,
                   if IsEnd(files[i], p, reading) then n + delta else n)
  {
    var files' := files[i := files[i].(refcount := files[i].refcount + delta)];
    assert forall j :: 0 <= j < |files| ==> IsEnd(files'[j], p, reading) == IsEnd(files[j], p, reading);
    if IsEnd(files[i], p, reading) {
      assert IsEnd(files'[i], p, reading);
    } else if n > 0 {
      var j :| 0 <= j < |files| && IsEnd(files[j], p, reading);
      assert IsEnd(files'[j], p, reading);
    }
  }

  /** Changing the count of an end changes the pipe's counter with it. */
  lemma CountPipe(s: State, i: int, delta: int, p: int)
    requires 0 <= i < |s.files| && s.files[i].inUse && p in s.pipes && PipeOK(s, p)
    requires 0 < s.files[i].refcount + delta
    ensures p in Count(s, i, delta).pipes && PipeOK(Count(s, i, delta), p)
  {
    EndsCount(s.files, i, delta, p, true, s.pipes[p].readers);
    EndsCount(s.files, i, delta, p, false, s.pipes[p].writers);
  }

  lemma AttachKeeps(s: State, exact: bool, t: int, k: int, i: int)
    requires Inv(s, exact) && t in s.tables && 0 <= k < |s.tables[t]| && s.tables[t][k] == -1
    requires i == -1 || (0 <= i < |s.files| && s.files[i].inUse)
    ensures Inv(Attach(s, t, k, i), exact)
  {
    var s' := Attach(s, t, k, i);
    forall j | 0 <= j < |s'.files| ensures FileOK(s', exact, j) {
      assert FileOK(s, exact, j);
      RefsUpdate(s.tables, t, k, i, j);
    }
    forall p | p in s'.pipes ensures PipeOK(s', p) {
      assert PipeOK(s, p);
      if i != -1 {
        assert FileOK(s, exact, i);
        CountPipe(s, i, 1, p);
        assert PipeOK(Count(s, i, 1), p);
      }
    }
    forall u | u in s'.tables ensures TableOK(s', u) { assert TableOK(s, u); }
  }

  /** Giving up a reference that is not the last one. */
  lemma DetachKeeps(s: State, exact: bool, t: int, k: int)
    requires Inv(s, exact) && t in s.tables && 0 <= k < |s.tables[t]|
    requires s.tables[t][k] != -1 ==> 0 <= s.tables[t][k] < |s.files| && s.files[s.tables[t][k]].refcount >= 2
    ensures Inv(Detach(s, t, k), exact)
  {
    var i := s.tables[t][k];
    var s' := Detach(s, t, k);
    assert TableOK(s, t);
    forall j | 0 <= j < |s'.files| ensures FileOK(s', exact, j) {
      assert FileOK(s, exact, j);
      RefsUpdate(s.tables, t, k, -1, j);
    }
    forall p | p in s'.pipes ensures PipeOK(s', p) {
      assert PipeOK(s, p);
      if i != -1 {
        CountPipe(s, i, -1, p);
        assert PipeOK(Count(s, i, -1), p);
      }
    }
    forall u | u in s'.tables ensures TableOK(s', u) { assert TableOK(s, u); }
  }

  lemma CloseKeeps(s: State, exact: bool, t: int, k: int)
    requires Inv(s, exact) && t in s.tables && 0 <= k < |s.tables[t]| && 0 <= s.tables[t][k] < |s.files|
    ensures Inv(CloseSlot(s, t, k), exact)
  {
    var i := s.tables[t][k];
    assert TableOK(s, t) && FileOK(s, exact, i);
    if s.files[i].refcount >= 2 {
      DetachKeeps(s, exact, t, k);
      CloseIsDetach(s, exact, t, k);
    } else {
      CloseLast(s, exact, t, k);
    }
  }

  /** Closing a file that others still hold releases nothing. */
  lemma CloseIsDetach(s: State, exact: bool, t: int, k: int)
    requires Inv(s, exact) && t in s.tables && 0 <= k < |s.tables[t]| && 0 <= s.tables[t][k] < |s.files|
    requires s.files[s.tables[t][k]].refcount >= 2 && Inv(Detach(s, t, k), exact)
    ensures CloseSlot(s, t, k) == Detach(s, t, k)
  {
    var i := s.tables[t][k];
    assert TableOK(s, t) && FileOK(s, exact, i);
    var s1 := Detach(s, t, k);
    if s.files[i].isPipe { assert PipeOK(s1, s.files[i].pipe); }
  }

  /** Closing the last reference: no slot names the file any more, and the pipe goes with its second end. */
  lemma CloseLast(s: State, exact: bool, t: int, k: int)
    requires Inv(s, exact) && t in s.tables && 0 <= k < |s.tables[t]| && 0 <= s.tables[t][k] < |s.files|
    requires s.files[s.tables[t][k]].inUse && s.files[s.tables[t][k]].refcount == 1
    ensures Inv(CloseSlot(s, t, k), exact)
  {
    var i := s.tables[t][k];
    var s' := CloseSlot(s, t, k);
    assert FileOK(s, exact, i);
    OnlySlot(s, exact, t, k);
    forall j | 0 <= j < |s'.files| ensures FileOK(s', exact, j) {
      assert FileOK(s, exact, j);
      RefsUpdate(s.tables, t, k, -1, j);
      if j != i && s.files[j].inUse && s.files[j].isPipe { EndStays(s, exact, i, j); }
    }
    forall p | p in s'.pipes ensures PipeOK(s', p) {
      assert PipeOK(s, p);
      LastEndPipe(s, exact, t, k, p);
    }
    forall u | u in s'.tables ensures TableOK(s', u) { assert TableOK(s, u); }
  }

  /** A file counted once is named by this slot only. */
  lemma OnlySlot(s: State, exact: bool, t: int, k: int)
    requires Inv(s, exact) && t in s.tables && 0 <= k < |s.tables[t]| && 0 <= s.tables[t][k] < |s.files|
    requires s.files[s.tables[t][k]].inUse && s.files[s.tables[t][k]].refcount == 1
    ensures forall u, l :: u in s.tables && 0 <= l < |s.tables[u]| && (u, l) != (t, k) ==>
      s.tables[u][l] != s.tables[t][k]
  {
    var i := s.tables[t][k];
    assert FileOK(s, exact, i);
    var R := Refs(s.tables, i);
    assert (t, k) in R;
    forall u, l | u in s.tables && 0 <= l < |s.tables[u]| && (u, l) != (t, k) ensures s.tables[u][l] != i {
      if s.tables[u][l] == i {
        assert (u, l) in R;
        SubsetSize({(t, k), (u, l)}, R);
      }
    }
  }

  /** A pipe whose last reader (or writer) goes is kept while another file in use points at it. */
  lemma EndStays(s: State, exact: bool, i: int, j: int)
    requires Inv(s, exact) && 0 <= i < |s.files| && 0 <= j < |s.files| && i != j
    requires s.files[i].inUse && s.files[i].refcount == 1 && s.files[j].inUse && s.files[j].isPipe
    ensures s.files[j].pipe in s.pipes
    ensures s.files[i].isPipe && s.files[i].pipe == s.files[j].pipe ==>
      var d := s.pipes[s.files[j].pipe];
      if s.files[i].mode == O_RDONLY then d.writers > 0 && d.readers == 1 else d.readers > 0 && d.writers == 1
  {
    assert FileOK(s, exact, i) && FileOK(s, exact, j);
    var p := s.files[j].pipe;
    assert PipeOK(s, p);
    var a, b := s.files[i].mode == O_RDONLY, s.files[j].mode == O_RDONLY;
    assert IsEnd(s.files[j], p, b);
    if s.files[i].isPipe && s.files[i].pipe == p {
      assert IsEnd(s.files[i], p, a);
      assert a != b;
    }
  }

  lemma EndsDrop(files: seq<KFile>, i: int, f: KFile, p: int, reading: bool, n: int)
    requires EndsOK(files, p, reading, n) && 0 <= i < |files| && !f.inUse && (IsEnd(files[i], p, reading) ==> n == 1)
    ensures EndsOK(files[i := f], p, reading, if IsEnd(files[i], p, reading) then 0 else n)
  {
    var files' := files[i := f];
    assert forall j :: 0 <= j < |files| && j != i ==> IsEnd(files'[j], p, reading) == IsEnd(files[j], p, reading);
    assert !IsEnd(files'[i], p, reading);
    if !IsEnd(files[i], p, reading) && n > 0 {
      var j :| 0 <= j < |files| && IsEnd(files[j], p, reading);
      assert IsEnd(files'[j], p, reading);
    }
  }

  lemma LastEndPipe(s: State, exact: bool, t: int, k: int, p: int)
    requires Inv(s, exact) && t in s.tables && 0 <= k < |s.tables[t]| && 0 <= s.tables[t][k] < |s.files|
    requires s.files[s.tables[t][k]].inUse && s.files[s.tables[t][k]].refcount == 1
    requires p in s.pipes && PipeOK(s, p) && p in CloseSlot(s, t, k).pipes
    ensures PipeOK(CloseSlot(s, t, k), p)
  {
    var i := s.tables[t][k];
    var f' := LastClosed(s, t, k, p);
    EndsDrop(s.files, i, f', p, true, s.pipes[p].readers);
    EndsDrop(s.files, i, f', p, false, s.pipes[p].writers);
  }

  /** The file and the pipe after the last reference to the file is closed. */
  lemma LastClosed(s: State, t: int, k: int, p: int) returns (f': KFile)
    requires t in s.tables && 0 <= k < |s.tables[t]| && 0 <= s.tables[t][k] < |s.files|
    requires s.files[s.tables[t][k]].inUse && s.files[s.tables[t][k]].refcount == 1
    requires p in s.pipes && p in CloseSlot(s, t, k).pipes
    ensures var s', i := CloseSlot(s, t, k), s.tables[t][k];
      && s'.files == s.files[i := f'] && !f'.inUse && s'.nextPipe == s.nextPipe
      && s'.pipes[p].readers == s.pipes[p].readers - (if IsEnd(s.files[i], p, true) then 1 else 0)
      && s'.pipes[p].writers == s.pipes[p].writers - (if IsEnd(s.files[i], p, false) then 1 else 0)
      && (s.files[i].isPipe && s.files[i].pipe == p ==> s'.pipes[p].readers > 0 || s'.pipes[p].writers > 0)
  {
    f' := CloseSlot(s, t, k).files[s.tables[t][k]];
  }

  // ----- The ring of a pipe -----

  predicate RingOK(d: Pipe) {
    |d.buffer| == RING && 0 <= d.head < RING && 0 <= d.count <= RING && d.tail == (d.head + d.count) % RING
  }

  /** The buffered bytes, oldest first. */
  function Content(d: Pipe): (r: seq<int>)
    requires RingOK(d)
    ensures |r| == d.count
  {
    seq(d.count, j requires 0 <= j < d.count => d.buffer[(d.head + j) % RING])
  }

  function PutByte(d: Pipe, b: int): Pipe
    requires RingOK(d)
  {
    d.(buffer := d.buffer[d.tail := b], tail := (d.tail + 1) % RING, count := d.count + 1)
  }

  function TakeByte(d: Pipe): Pipe {
    d.(head := (d.head + 1) % RING, count := d.count - 1)
  }

  lemma PutAppends(d: Pipe, b: int)
    requires RingOK(d) && d.count < RING
    ensures RingOK(PutByte(d, b)) && Content(PutByte(d, b)) == Content(d) + [b]
  {
    var d' := PutByte(d, b);
    forall j | 0 <= j < d.count ensures Content(d')[j] == Content(d)[j] { RingApart(d.head, j, d.count); }
  }

  lemma RingApart(head: int, j: int, count: int)
    requires 0 <= head < RING && 0 <= j < count < RING
    ensures (head + j) % RING != (head + count) % RING
  {}

  lemma RingNext(head: int, j: int)
    requires 0 <= head < RING && 0 <= j < RING
    ensures ((head + 1) % RING + j) % RING == (head + (j + 1)) % RING
  {
    if head + 1 == RING { assert (head + 1) % RING == 0; }
  }

  lemma TakeRemoves(d: Pipe)
    requires RingOK(d) && d.count > 0
    ensures RingOK(TakeByte(d)) && Content(d) == [d.buffer[d.head]] + Content(TakeByte(d))
  {
    TakeKeepsRing(d);
    var C, C' := Content(d), Content(TakeByte(d));
    forall j | 0 <= j < |C'| ensures C'[j] == C[j + 1] { TakeAt(d, j); }
    assert C[0] == d.buffer[d.head];
    assert C == [C[0]] + C';
  }

  lemma TakeKeepsRing(d: Pipe)
    requires RingOK(d) && d.count > 0
    ensures RingOK(TakeByte(d))
  {
    RingNext(d.head, d.count - 1);
  }

  lemma TakeAt(d: Pipe, j: int)
    requires RingOK(d) && RingOK(TakeByte(d)) && 0 <= j < d.count - 1
    ensures Content(TakeByte(d))[j] == Content(d)[j + 1]
  {
    RingNext(d.head, j);
  }

  /** What was read from a pipe, followed by what it holds, is what was written to it. */
  ghost predicate Flow(s: State, p: int)
    requires p in s.pipes
  {
    RingOK(s.pipes[p]) && p in s.put && p in s.taken && s.taken[p] + Content(s.pipes[p]) == s.put[p]
  }
}
