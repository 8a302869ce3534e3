/**
 The descriptor system calls as events, and what every run of them keeps.
 */
module DescriptorRuns {
  import opened DescriptorSpec

  /**
   One system call of task `t`, or one loop iteration of its pipe read or write.
   `found` says that the file exists or may be created, `stackOk` that the new task gets its stack.
   */
  datatype Event =
    | Open(t: int, found: bool, flags: int)
    | MakePipe(t: int)
    | Close(t: int, fd: int)
    | Spawn(t: int, fdIn: int, fdOut: int, stackOk: bool)
    | Exit(t: int)
    | Read(t: int, fd: int)
    | Write(t: int, fd: int, b: int)

  /** What the code demands: a task that exists, and redirections that name a descriptor. */
  predicate Allowed(s: State, e: Event) {
    && e.t in s.tables
    && (e.Spawn? ==> -1 <= e.fdIn < MAX_FDS && -1 <= e.fdOut < MAX_FDS)
  }

  // ----- The calls -----

  /** The first descriptor from `k` on that is free, or -1. */
  function FreeFd(table: Table, k: nat): (r: int)
    ensures r == -1 || (k <= r < |table| && table[r] == -1)
    decreases |table| - k
  {
    if k >= |table| then -1 else if table[k] == -1 then k else FreeFd(table, k + 1)
  }

  /** The first file from `i` on that is not in use, or -1. */
  function FreeFile(files: seq<KFile>, i: nat): (r: int)
    ensures r == -1 || (i <= r < |files| && !files[r].inUse)
    decreases |files| - i
  {
    if i >= |files| then -1 else if !files[i].inUse then i else FreeFile(files, i + 1)
  }

  /** Descriptor `fd` of task `t` comes to name the unused file `i`. */
  function Enter(s: State, t: int, fd: int, i: int, f: KFile): State
    requires t in s.tables && 0 <= fd < |s.tables[t]| && 0 <= i < |s.files|
  {
    SetSlot(s.(files := s.files[i := f]), t, fd, i)
  }

  function OpenResult(s: State, t: int, found: bool): int
    requires t in s.tables
  {
    if found && FreeFile(s.files, 0) != -1 then FreeFd(s.tables[t], FIRST_FD) else -1
  }

  function DoOpen(s: State, t: int, found: bool, flags: int): State
    requires t in s.tables
  {
    var fd, i := OpenResult(s, t, found), FreeFile(s.files, 0);
    if fd == -1 then s
    else Enter(s, t, fd, i, s.files[i].(inUse := true, refcount := 1, isPipe := false, mode := flags))
  }

  function PipeEnd(p: int, mode: int): KFile { KFile(true, 1, true, mode, p) }

  function NewPipe(): Pipe { Pipe(seq(RING, _ => 0), 0, 0, 0, 1, 1) }

  /** The two descriptors sys_pipe_impl picks. */
  function PipeFds(s: State, t: int): (r: (int, int))
    requires t in s.tables
    ensures r.1 != -1 ==> 0 <= r.0 < r.1 < |s.tables[t]| && s.tables[t][r.0] == s.tables[t][r.1] == -1
  {
    var a := FreeFd(s.tables[t], FIRST_FD);
    (a, if a == -1 then -1 else FreeFd(s.tables[t], a + 1))
  }

  function PipeFiles(s: State): (r: (int, int))
    ensures r.1 != -1 ==> 0 <= r.0 < r.1 < |s.files| && !s.files[r.0].inUse && !s.files[r.1].inUse
  {
    var a := FreeFile(s.files, 0);
    (a, if a == -1 then -1 else FreeFile(s.files, a + 1))
  }

  /** Pipe `nextPipe` is allocated; its ends are the files `i` and `j`, the descriptors `a` and `b`. */
  function EnterPipe(s: State, t: int, a: int, b: int, i: int, j: int): State
    requires t in s.tables && 0 <= a < |s.tables[t]| && 0 <= b < |s.tables[t]| && 0 <= i < |s.files|
    requires 0 <= j < |s.files|
  {
    var p := s.nextPipe;
    var s1 := s.(pipes := s.pipes[p := NewPipe()], nextPipe := p + 1, put := s.put[p := []], taken := s.taken[p := []]);
    Enter(Enter(s1, t, a, i, PipeEnd(p, O_RDONLY)), t, b, j, PipeEnd(p, O_WRONLY))
  }

  function DoPipe(s: State, t: int): State
    requires t in s.tables
  {
    var (a, b) := PipeFds(s, t);
    var (i, j) := PipeFiles(s);
    if b == -1 || j == -1 then s else EnterPipe(s, t, a, b, i, j)
  }

  predicate IsOpen(s: State, t: int, fd: int) {
    t in s.tables && 0 <= fd < |s.tables[t]| && 0 <= s.tables[t][fd] < |s.files|
  }

  function DoClose(s: State, t: int, fd: int): State {
    if IsOpen(s, t, fd) then CloseSlot(s, t, fd) else s
  }

  /** The first `k` descriptors of task `t` closed, as exit_process does. */
  function ClosedTo(s: State, t: int, k: nat): State {
    if k == 0 then s else DoClose(ClosedTo(s, t, k - 1), t, k - 1)
  }

  function DoExit(s: State, t: int): State {
    var s1 := ClosedTo(s, t, MAX_FDS);
    s1.(tables := s1.tables - {t})
  }

  /** Slot `k` of task `u` becomes another name for descriptor `fd` of task `t`, if it names a file. */
  function Share(s: State, t: int, fd: int, u: int, k: int): State {
    if u in s.tables && 0 <= k < |s.tables[u]| then
      if IsOpen(s, t, fd) then Attach(s, u, k, s.tables[t][fd]) else SetSlot(s, u, k, -1)
    else s
  }

  /** fd_inherit after `k` descriptors. */
  function InheritTo(s: State, t: int, u: int, k: nat): State {
    if k == 0 then s else Share(InheritTo(s, t, u, k - 1), t, k - 1, u, k - 1)
  }

  /** One redirection in create_process: the child's slot gives up its file and shares the parent's `fd`. */
  function Redirect(s: State, t: int, fd: int, u: int, k: int): State {
    Share(if IsOpen(s, u, k) then Detach(s, u, k) else s, t, fd, u, k)
  }

  function Redirected(s: State, t: int, fdIn: int, fdOut: int, u: int): State {
    var s1 := if fdIn == -1 then s else Redirect(s, t, fdIn, u, 0);
    if fdOut == -1 then s1 else Redirect(Redirect(s1, t, fdOut, u, 1), t, fdOut, u, 2)
  }

  function NewTask(s: State): State {
    s.(tables := s.tables[s.nextPid := seq(MAX_FDS, _ => -1)], nextPid := s.nextPid + 1)
  }

  /** The descriptor part of create_process; without a stack the task goes and the counts stay. */
  function DoSpawn(s: State, t: int, fdIn: int, fdOut: int, stackOk: bool): State {
    var u := s.nextPid;
    var s1 := Redirected(InheritTo(NewTask(s), t, u, MAX_FDS), t, fdIn, fdOut, u);
    if stackOk then s1 else s1.(tables := s1.tables - {u})
  }

  /** The pipe that descriptor `fd` of task `t` names, or -1. */
  function PipeOf(s: State, t: int, fd: int): (p: int)
    ensures p != -1 ==> p in s.pipes
  {
    if IsOpen(s, t, fd) && s.files[s.tables[t][fd]].isPipe && s.files[s.tables[t][fd]].pipe in s.pipes
    then s.files[s.tables[t][fd]].pipe else -1
  }

  predicate CanTake(d: Pipe) { d.count > 0 && RingOK(d) }

  predicate CanPut(d: Pipe) { d.readers > 0 && d.count < RING && RingOK(d) }

  /** One iteration of the read loop. */
  function DoRead(s: State, t: int, fd: int): State {
    var p := PipeOf(s, t, fd);
    if p != -1 && CanTake(s.pipes[p]) && p in s.taken then
      s.(pipes := s.pipes[p := TakeByte(s.pipes[p])],
        taken := s.taken[p := s.taken[p] + [s.pipes[p].buffer[s.pipes[p].head]]])
    else s
  }

  /** One iteration of the write loop; like the code it does not look at the descriptor's mode. */
  function DoWrite(s: State, t: int, fd: int, b: int): State {
    var p := PipeOf(s, t, fd);
    if p != -1 && CanPut(s.pipes[p]) && p in s.put then
      s.(pipes := s.pipes[p := PutByte(s.pipes[p], b)], put := s.put[p := s.put[p] + [b]])
    else s
  }

  function Do(s: State, e: Event): State
    requires Allowed(s, e)
  {
    match e
    case Open(t, found, flags) => DoOpen(s, t, found, flags)
    case MakePipe(t) => DoPipe(s, t)
    case Close(t, fd) => DoClose(s, t, fd)
    case Spawn(t, fdIn, fdOut, stackOk) => DoSpawn(s, t, fdIn, fdOut, stackOk)
    case Exit(t) => DoExit(s, t)
    case Read(t, fd) => DoRead(s, t, fd)
    case Write(t, fd, b) => DoWrite(s, t, fd, b)
  }

  // ----- The counts, call by call -----

  lemma Unnamed(s: State, exact: bool, i: int)
    requires Inv(s, exact) && 0 <= i < |s.files| && !s.files[i].inUse
    ensures Refs(s.tables, i) == {}
  {
    forall t, k | t in s.tables && 0 <= k < |s.tables[t]| ensures s.tables[t][k] != i { assert TableOK(s, t); }
    RefsNone(s.tables, i);
  }

  lemma OpenKeeps(s: State, exact: bool, t: int, found: bool, flags: int)
    requires Inv(s, exact) && t in s.tables
    ensures Inv(DoOpen(s, t, found, flags), exact)
  {
    var fd, i := OpenResult(s, t, found), FreeFile(s.files, 0);
    if fd != -1 {
      var f := s.files[i].(inUse := true, refcount := 1, isPipe := false, mode := flags);
      EnterKeeps(s, exact, t, fd, i, f);
      var s' := DoOpen(s, t, found, flags);
      forall p | p in s'.pipes ensures PipeOK(s', p) {
        assert PipeOK(s, p);
        EndsEnter(s.files, i, f, p, true, s.pipes[p].readers);
        EndsEnter(s.files, i, f, p, false, s.pipes[p].writers);
      }
    }
  }

  /** A fresh file with one reference: files and tables stay in order. */
  lemma EnterKeeps(s: State, exact: bool, t: int, fd: int, i: int, f: KFile)
    requires Inv(s, exact) && t in s.tables && 0 <= fd < |s.tables[t]| && s.tables[t][fd] == -1
    requires 0 <= i < |s.files| && !s.files[i].inUse && f.inUse && f.refcount == 1
    ensures var s' := Enter(s, t, fd, i, f);
      && (forall j {:trigger FileOK(s', exact, j)} ::
            0 <= j < |s'.files| && (j != i || !f.isPipe) ==> FileOK(s', exact, j))
      && (forall u {:trigger TableOK(s', u)} :: u in s'.tables ==> TableOK(s', u))
      && |Refs(s'.tables, i)| == 1
  {
    var s' := Enter(s, t, fd, i, f);
    Unnamed(s, exact, i);
    RefsUpdate(s.tables, t, fd, i, i);
    forall j | 0 <= j < |s'.files| && (j != i || !f.isPipe) ensures FileOK(s', exact, j) {
      assert FileOK(s, exact, j);
      RefsUpdate(s.tables, t, fd, i, j);
    }
    forall u | u in s'.tables ensures TableOK(s', u) { assert TableOK(s, u); }
  }

  /** A file that is no end of `p` comes into use. */
  lemma EndsEnter(files: seq<KFile>, i: int, f: KFile, p: int, reading: bool, n: int)
    requires EndsOK(files, p, reading, n) && 0 <= i < |files| && !files[i].inUse && !IsEnd(f, p, reading)
    ensures EndsOK(files[i := f], p, reading, n)
  {
    var files' := files[i := f];
    assert forall j :: 0 <= j < |files| && j != i ==> IsEnd(files'[j], p, reading) == IsEnd(files[j], p, reading);
    assert !IsEnd(files'[i], p, reading);
    if n > 0 {
      var j :| 0 <= j < |files| && IsEnd(files[j], p, reading);
      assert IsEnd(files'[j], p, reading);
    }
  }

  /** The first end of a pipe. */
  lemma EndsNew(files: seq<KFile>, i: int, f: KFile, p: int, reading: bool)
    requires EndsOK(files, p, reading, 0) && 0 <= i < |files| && IsEnd(f, p, reading) && f.refcount == 1
    requires forall j :: 0 <= j < |files| ==> !IsEnd(files[j], p, reading)
    ensures EndsOK(files[i := f], p, reading, 1)
  {
    var files' := files[i := f];
    assert forall j :: 0 <= j < |files| && j != i ==> !IsEnd(files'[j], p, reading);
    assert IsEnd(files'[i], p, reading);
  }

  /** No file in use points at the pipe to be made. */
  lemma FreshPipe(s: State, exact: bool, reading: bool)
    requires Inv(s, exact)
    ensures forall j :: 0 <= j < |s.files| ==> !IsEnd(s.files[j], s.nextPipe, reading)
  {
    forall j | 0 <= j < |s.files| ensures !IsEnd(s.files[j], s.nextPipe, reading) {
      assert FileOK(s, exact, j);
      if s.files[j].inUse && s.files[j].isPipe { assert PipeOK(s, s.files[j].pipe); }
    }
  }

  lemma EnterPipeEnds(s: State, exact: bool, i: int, j: int, p: int, reading: bool)
    requires Inv(s, exact) && 0 <= i < |s.files| && 0 <= j < |s.files| && i != j && !s.files[i].inUse
    requires !s.files[j].inUse
    requires p in s.pipes || p == s.nextPipe
    ensures EndsOK(s.files[i := PipeEnd(s.nextPipe, O_RDONLY)][j := PipeEnd(s.nextPipe, O_WRONLY)], p, reading,
                   if p == s.nextPipe then 1 else if reading then s.pipes[p].readers else s.pipes[p].writers)
  {
    var q := s.nextPipe;
    var r, w := PipeEnd(q, O_RDONLY), PipeEnd(q, O_WRONLY);
    FreshPipe(s, exact, reading);
    if p != q {
      assert PipeOK(s, p);
      var n := if reading then s.pipes[p].readers else s.pipes[p].writers;
      EndsEnter(s.files, i, r, p, reading, n);
      EndsEnter(s.files[i := r], j, w, p, reading, n);
    } else if reading {
      EndsNew(s.files, i, r, p, reading);
      EndsEnter(s.files[i := r], j, w, p, reading, 1);
    } else {
      EndsEnter(s.files, i, r, p, reading, 0);
      EndsNew(s.files[i := r], j, w, p, reading);
    }
  }

  lemma PipeKeeps(s: State, exact: bool, t: int)
    requires Inv(s, exact) && t in s.tables
    ensures Inv(DoPipe(s, t), exact)
  {
    var (a, b) := PipeFds(s, t);
    var (i, j) := PipeFiles(s);
    if b != -1 && j != -1 {
      var s' := EnterPipe(s, t, a, b, i, j);
      var tables1 := s.tables[t := s.tables[t][a := i]];
      Unnamed(s, exact, i);
      Unnamed(s, exact, j);
      forall l | 0 <= l < |s'.files| ensures FileOK(s', exact, l) {
        assert FileOK(s, exact, l);
        RefsUpdate(s.tables, t, a, i, l);
        RefsUpdate(tables1, t, b, j, l);
      }
      forall p | p in s'.pipes ensures PipeOK(s', p) {
        EnterPipeEnds(s, exact, i, j, p, true);
        EnterPipeEnds(s, exact, i, j, p, false);
        if p != s.nextPipe { assert PipeOK(s, p); }
      }
      forall u | u in s'.tables ensures TableOK(s', u) { assert TableOK(s, u); }
    }
  }

  lemma NewTaskKeeps(s: State, exact: bool)
    requires Inv(s, exact)
    ensures s.nextPid !in s.tables && Inv(NewTask(s), exact)
  {
    var s' := NewTask(s);
    forall u | u in s.tables ensures u != s.nextPid { assert TableOK(s, u); }
    forall i | 0 <= i < |s'.files| ensures FileOK(s', exact, i) {
      assert FileOK(s, exact, i);
      RefsNew(s.tables, s.nextPid, MAX_FDS, i);
    }
    forall p | p in s'.pipes ensures PipeOK(s', p) { assert PipeOK(s, p); }
    forall u | u in s'.tables ensures TableOK(s', u) { if u in s.tables { assert TableOK(s, u); } }
  }

  /** A task goes: references are lost unless its table is empty. */
  lemma RemoveKeeps(s: State, exact: bool, t: int)
    requires Inv(s, exact) && t in s.tables
    requires exact ==> forall k :: 0 <= k < |s.tables[t]| ==> s.tables[t][k] == -1
    ensures Inv(s.(tables := s.tables - {t}), exact)
  {
    var s' := s.(tables := s.tables - {t});
    assert TableOK(s, t);
    forall i | 0 <= i < |s'.files| ensures FileOK(s', exact, i) {
      assert FileOK(s, exact, i);
      RefsRemove(s.tables, t, i);
      if exact { assert Refs(s'.tables, i) == Refs(s.tables, i); }
    }
    forall p | p in s'.pipes ensures PipeOK(s', p) { assert PipeOK(s, p); }
    forall u | u in s'.tables ensures TableOK(s', u) { assert TableOK(s, u); }
  }

  /** What fd_inherit has done after `k` descriptors: the child names what the parent names. */
  ghost predicate Inherited(s: State, t: int, u: int, k: int) {
    && t in s.tables && u in s.tables && t != u && |s.tables[t]| == |s.tables[u]| == MAX_FDS && 0 <= k <= MAX_FDS
    && (forall l :: 0 <= l < MAX_FDS ==> s.tables[u][l] == if l < k then s.tables[t][l] else -1)
  }

  lemma {:induction false} InheritKeeps(s: State, exact: bool, t: int, u: int, k: nat)
    requires Inv(s, exact) && Inherited(s, t, u, 0) && k <= MAX_FDS
    ensures Inv(InheritTo(s, t, u, k), exact) && Inherited(InheritTo(s, t, u, k), t, u, k)
  {
    if k > 0 {
      InheritKeeps(s, exact, t, u, k - 1);
      ShareKeeps(InheritTo(s, t, u, k - 1), exact, t, k - 1, u, k - 1);
    }
  }

  lemma ShareKeeps(s: State, exact: bool, t: int, fd: int, u: int, k: int)
    requires Inv(s, exact) && t in s.tables && u in s.tables && t != u && 0 <= fd < |s.tables[t]|
    requires 0 <= k < |s.tables[u]|
    requires s.tables[u][k] == -1
    ensures Inv(Share(s, t, fd, u, k), exact)
    ensures Share(s, t, fd, u, k).tables == s.tables[u := s.tables[u][k := s.tables[t][fd]]]
  {
    assert TableOK(s, t) && TableOK(s, u);
    AttachKeeps(s, exact, u, k, s.tables[t][fd]);
  }

  /** A file named by two slots is counted at least twice. */
  lemma TwoHolders(s: State, exact: bool, t: int, u: int, k: int)
    requires Inv(s, exact) && t in s.tables && u in s.tables && t != u && 0 <= k < |s.tables[t]| && k < |s.tables[u]|
    requires s.tables[t][k] == s.tables[u][k] && 0 <= s.tables[t][k] < |s.files| && s.files[s.tables[t][k]].inUse
    ensures s.files[s.tables[t][k]].refcount >= 2
  {
    var i := s.tables[t][k];
    assert FileOK(s, exact, i);
    assert (t, k) in Refs(s.tables, i) && (u, k) in Refs(s.tables, i);
    SubsetSize({(t, k), (u, k)}, Refs(s.tables, i));
  }

  lemma RedirectKeeps(s: State, exact: bool, t: int, fd: int, u: int, k: int)
    requires Inv(s, exact) && t in s.tables && u in s.tables && t != u && 0 <= fd < MAX_FDS && 0 <= k < MAX_FDS
    requires |s.tables[t]| == |s.tables[u]| == MAX_FDS && s.tables[t][k] == s.tables[u][k]
    ensures Inv(Redirect(s, t, fd, u, k), exact)
    ensures Redirect(s, t, fd, u, k).tables == s.tables[u := s.tables[u][k := s.tables[t][fd]]]
  {
    assert TableOK(s, t) && TableOK(s, u);
    var s1 := if IsOpen(s, u, k) then Detach(s, u, k) else s;
    if IsOpen(s, u, k) {
      TwoHolders(s, exact, t, u, k);
      DetachKeeps(s, exact, u, k);
    }
    ShareKeeps(s1, exact, t, fd, u, k);
    assert s.tables[u][k := -1][k := s.tables[t][fd]] == s.tables[u][k := s.tables[t][fd]];
  }

  lemma RedirectedKeeps(s: State, exact: bool, t: int, fdIn: int, fdOut: int, u: int)
    requires Inv(s, exact) && Inherited(s, t, u, MAX_FDS) && -1 <= fdIn < MAX_FDS && -1 <= fdOut < MAX_FDS
    ensures Inv(Redirected(s, t, fdIn, fdOut, u), exact) && u in Redirected(s, t, fdIn, fdOut, u).tables
  {
    var s1 := if fdIn == -1 then s else Redirect(s, t, fdIn, u, 0);
    if fdIn != -1 { RedirectKeeps(s, exact, t, fdIn, u, 0); }
    if fdOut != -1 {
      RedirectKeeps(s1, exact, t, fdOut, u, 1);
      RedirectKeeps(Redirect(s1, t, fdOut, u, 1), exact, t, fdOut, u, 2);
    }
  }

  lemma SpawnKeeps(s: State, exact: bool, t: int, fdIn: int, fdOut: int, stackOk: bool)
    requires Inv(s, exact) && t in s.tables && -1 <= fdIn < MAX_FDS && -1 <= fdOut < MAX_FDS
    ensures Inv(DoSpawn(s, t, fdIn, fdOut, stackOk), exact && stackOk)
  {
    var u := s.nextPid;
    NewTaskKeeps(s, exact);
    assert TableOK(s, t);
    InheritKeeps(NewTask(s), exact, t, u, MAX_FDS);
    var s1 := Redirected(InheritTo(NewTask(s), t, u, MAX_FDS), t, fdIn, fdOut, u);
    RedirectedKeeps(InheritTo(NewTask(s), t, u, MAX_FDS), exact, t, fdIn, fdOut, u);
    if !stackOk {
      Weaken(s1, exact);
      RemoveKeeps(s1, false, u);
    }
  }

  lemma Weaken(s: State, exact: bool)
    requires Inv(s, exact)
    ensures Inv(s, false)
  {
    forall i | 0 <= i < |s.files| ensures FileOK(s, false, i) { assert FileOK(s, exact, i); }
  }

  lemma DoCloseKeeps(s: State, exact: bool, t: int, fd: int)
    requires Inv(s, exact) && t in s.tables && 0 <= fd < |s.tables[t]|
    ensures Inv(DoClose(s, t, fd), exact) && DoClose(s, t, fd).tables == s.tables[t := s.tables[t][fd := -1]]
  {
    assert TableOK(s, t);
    if IsOpen(s, t, fd) {
      CloseKeeps(s, exact, t, fd);
    } else {
      assert s.tables[t][fd := -1] == s.tables[t];
    }
  }

  lemma {:induction false} ClosedKeeps(s: State, exact: bool, t: int, k: nat)
    requires Inv(s, exact) && t in s.tables && k <= MAX_FDS
    ensures Inv(ClosedTo(s, t, k), exact)
    ensures t in ClosedTo(s, t, k).tables && |ClosedTo(s, t, k).tables[t]| == MAX_FDS
    ensures forall l :: 0 <= l < k ==> ClosedTo(s, t, k).tables[t][l] == -1
  {
    if k > 0 {
      ClosedKeeps(s, exact, t, k - 1);
      DoCloseKeeps(ClosedTo(s, t, k - 1), exact, t, k - 1);
    } else {
      assert TableOK(s, t);
    }
  }

  lemma ExitKeeps(s: State, exact: bool, t: int)
    requires Inv(s, exact) && t in s.tables
    ensures Inv(DoExit(s, t), exact)
  {
    ClosedKeeps(s, exact, t, MAX_FDS);
    RemoveKeeps(ClosedTo(s, t, MAX_FDS), exact, t);
  }

  /** Moving a byte touches no count. */
  lemma MoveKeeps(s: State, exact: bool, p: int, d: Pipe, s': State)
    requires Inv(s, exact) && p in s.pipes && d.readers == s.pipes[p].readers && d.writers == s.pipes[p].writers
    requires s' == s.(pipes := s.pipes[p := d], put := s'.put, taken := s'.taken)
    ensures Inv(s', exact)
  {
    forall i | 0 <= i < |s'.files| ensures FileOK(s', exact, i) { assert FileOK(s, exact, i); }
    forall q | q in s'.pipes ensures PipeOK(s', q) { assert PipeOK(s, q); }
    forall u | u in s'.tables ensures TableOK(s', u) { assert TableOK(s, u); }
  }

  /** Whether the counts stay exact: not when a new task fails to get its stack. */
  predicate Exact(e: Event) { e.Spawn? ==> e.stackOk }

  /** Every call keeps the counts at least as high as the references, and exact unless a task gets no stack. */
  lemma StepKeepsCounts(s: State, exact: bool, e: Event)
    requires Inv(s, exact) && Allowed(s, e)
    ensures Inv(Do(s, e), exact && Exact(e))
  {
    match e
    case Open(t, found, flags) => OpenKeeps(s, exact, t, found, flags);
    case MakePipe(t) => PipeKeeps(s, exact, t);
    case Close(t, fd) => if IsOpen(s, t, fd) { CloseKeeps(s, exact, t, fd); }
    case Spawn(t, fdIn, fdOut, stackOk) => SpawnKeeps(s, exact, t, fdIn, fdOut, stackOk);
    case Exit(t) => ExitKeeps(s, exact, t);
    case Read(t, fd) =>
      var p := PipeOf(s, t, fd);
      if p != -1 { MoveKeeps(s, exact, p, DoRead(s, t, fd).pipes[p], DoRead(s, t, fd)); }
    case Write(t, fd, b) =>
      var p := PipeOf(s, t, fd);
      if p != -1 { MoveKeeps(s, exact, p, DoWrite(s, t, fd, b).pipes[p], DoWrite(s, t, fd, b)); }
  }

  // ----- What the calls are for -----

  /** The descriptor chosen is the lowest free one, and -1 means that there is none. */
  lemma {:induction false} LowestFd(table: Table, k: nat)
    ensures forall j :: k <= j < |table| && (FreeFd(table, k) == -1 || j < FreeFd(table, k)) ==> table[j] != -1
    decreases |table| - k
  {
    if k < |table| && table[k] != -1 { LowestFd(table, k + 1); }
  }

  lemma {:induction false} LowestFile(files: seq<KFile>, i: nat)
    ensures forall j :: i <= j < |files| && (FreeFile(files, i) == -1 || j < FreeFile(files, i)) ==> files[j].inUse
    decreases |files| - i
  {
    if i < |files| && files[i].inUse { LowestFile(files, i + 1); }
  }

  /** A pipe that is made connects two new descriptors: one end reads what the other writes. */
  lemma PipeConnects(s: State, t: int)
    requires t in s.tables && PipeFds(s, t).1 != -1 && PipeFiles(s).1 != -1 && 0 <= s.nextPipe
    ensures var (a, b) := PipeFds(s, t);
      var s' := DoPipe(s, t);
      && PipeOf(s', t, a) == PipeOf(s', t, b) == s.nextPipe
      && s'.files[s'.tables[t][a]].mode == O_RDONLY && s'.files[s'.tables[t][b]].mode == O_WRONLY
      && s'.pipes == s.pipes[s.nextPipe := NewPipe()] && RingOK(NewPipe()) && Content(NewPipe()) == []
      && (forall k :: 0 <= k < |s.tables[t]| && k != a && k != b ==> s'.tables[t][k] == s.tables[t][k])
  {}

  /** The parent's descriptor that the child's descriptor `k` stands for. */
  function SourceFd(k: int, fdIn: int, fdOut: int): int {
    if k == 0 && fdIn != -1 then fdIn else if (k == 1 || k == 2) && fdOut != -1 then fdOut else k
  }

  /** A new task has its parent's descriptors, but for the redirected 0, 1 and 2. */
  lemma SpawnTable(s: State, exact: bool, t: int, fdIn: int, fdOut: int)
    requires Inv(s, exact) && t in s.tables && -1 <= fdIn < MAX_FDS && -1 <= fdOut < MAX_FDS
    ensures var s' := DoSpawn(s, t, fdIn, fdOut, true);
      && s.nextPid in s'.tables && |s'.tables[s.nextPid]| == MAX_FDS == |s.tables[t]| && t in s'.tables
      && s'.tables[t] == s.tables[t]
      && forall k :: 0 <= k < MAX_FDS ==> s'.tables[s.nextPid][k] == s.tables[t][SourceFd(k, fdIn, fdOut)]
  {
    var u := s.nextPid;
    NewTaskKeeps(s, exact);
    assert TableOK(s, t);
    InheritKeeps(NewTask(s), exact, t, u, MAX_FDS);
    InheritParent(NewTask(s), t, u, MAX_FDS);
    RedirectedTable(InheritTo(NewTask(s), t, u, MAX_FDS), exact, t, fdIn, fdOut, u);
  }

  lemma {:induction false} InheritParent(s: State, t: int, u: int, k: nat)
    requires t in s.tables && t != u
    ensures t in InheritTo(s, t, u, k).tables && InheritTo(s, t, u, k).tables[t] == s.tables[t]
  {
    if k > 0 { InheritParent(s, t, u, k - 1); }
  }

  lemma RedirectedTable(s: State, exact: bool, t: int, fdIn: int, fdOut: int, u: int)
    requires Inv(s, exact) && Inherited(s, t, u, MAX_FDS) && -1 <= fdIn < MAX_FDS && -1 <= fdOut < MAX_FDS
    ensures var T := s.tables[t];
      var row := if fdIn == -1 then s.tables[u] else s.tables[u][0 := T[fdIn]];
      Redirected(s, t, fdIn, fdOut, u).tables ==
        s.tables[u := if fdOut == -1 then row else row[1 := T[fdOut]][2 := T[fdOut]]]
  {
    var s1 := if fdIn == -1 then s else Redirect(s, t, fdIn, u, 0);
    if fdIn != -1 { RedirectKeeps(s, exact, t, fdIn, u, 0); }
    if fdOut != -1 {
      RedirectKeeps(s1, exact, t, fdOut, u, 1);
      RedirectKeeps(Redirect(s1, t, fdOut, u, 1), exact, t, fdOut, u, 2);
    }
    assert s.tables[u := s.tables[u]] == s.tables;
  }

  // ----- When the counts stay exact -----

  /** The descriptors a new task would have are all empty. */
  predicate NothingToShare(s: State, t: int, fdIn: int, fdOut: int)
    requires t in s.tables && |s.tables[t]| == MAX_FDS && -1 <= fdIn < MAX_FDS && -1 <= fdOut < MAX_FDS
  {
    forall k :: 0 <= k < MAX_FDS ==> s.tables[t][SourceFd(k, fdIn, fdOut)] == -1
  }

  /** A task that goes with a descriptor open leaves that file's count too high. */
  lemma RemoveBreaks(s: State, u: int, k: int)
    requires Inv(s, true) && u in s.tables && 0 <= k < |s.tables[u]| && s.tables[u][k] != -1
    ensures !Inv(s.(tables := s.tables - {u}), true)
  {
    var s' := s.(tables := s.tables - {u});
    assert TableOK(s, u);
    var i := s.tables[u][k];
    assert FileOK(s, true, i);
    var R, R' := Refs(s.tables, i), Refs(s'.tables, i);
    assert (u, k) in R && (u, k) !in R' && R' <= R - {(u, k)};
    SubsetSize(R', R - {(u, k)});
    MinusSize(R, (u, k));
    assert !FileOK(s', true, i);
  }

  /** Without a stack the counts stay exact if and only if there was nothing to share. */
  lemma SpawnFailure(s: State, t: int, fdIn: int, fdOut: int)
    requires Inv(s, true) && t in s.tables && -1 <= fdIn < MAX_FDS && -1 <= fdOut < MAX_FDS
    ensures |s.tables[t]| == MAX_FDS
    ensures Inv(DoSpawn(s, t, fdIn, fdOut, false), true) <==> NothingToShare(s, t, fdIn, fdOut)
  {
    var s1, u := DoSpawn(s, t, fdIn, fdOut, true), s.nextPid;
    assert TableOK(s, t);
    SpawnKeeps(s, true, t, fdIn, fdOut, true);
    SpawnTable(s, true, t, fdIn, fdOut);
    if NothingToShare(s, t, fdIn, fdOut) {
      RemoveKeeps(s1, true, u);
    } else {
      var k :| 0 <= k < MAX_FDS && s.tables[t][SourceFd(k, fdIn, fdOut)] != -1;
      RemoveBreaks(s1, u, k);
    }
  }

  /** Of all calls, exactly a creation without a stack that had something to share makes counts too high. */
  lemma StepExact(s: State, e: Event)
    requires Inv(s, true) && Allowed(s, e)
    ensures e.Spawn? ==> |s.tables[e.t]| == MAX_FDS
    ensures Inv(Do(s, e), true) <==> (Exact(e) || NothingToShare(s, e.t, e.fdIn, e.fdOut))
  {
    StepKeepsCounts(s, true, e);
    if e.Spawn? {
      assert TableOK(s, e.t);
      if !e.stackOk { SpawnFailure(s, e.t, e.fdIn, e.fdOut); }
    }
  }
}
