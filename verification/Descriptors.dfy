/**
 The descriptor calls as the kernel carries them out, field by field, each
 proved equal to its event in DescriptorRuns.
 */
module Descriptors {
  import opened DescriptorSpec
  import opened DescriptorRuns
  import opened PipeRuns

  const O_CREAT: int := 0x200

  /** flags & O_CREAT */
  predicate MayCreate(flags: nat) { flags / O_CREAT % 2 == 1 }

  /** The events of tasks other than `t` that take place while it waits; impossible ones are passed over. */
  function Others(s: State, t: int, es: seq<Event>): State
    decreases |es|
  {
    if es == [] then s
    else Others(if Allowed(s, es[0]) && es[0].t != t then Do(s, es[0]) else s, t, es[1..])
  }

  lemma {:induction false} OthersKeep(s: State, exact: bool, t: int, fd: int, es: seq<Event>)
    requires Good(s, exact) && PipeOf(s, t, fd) != -1
    requires exact ==> AllExact(es)
    ensures Good(Others(s, t, es), exact) && PipeOf(Others(s, t, es), t, fd) == PipeOf(s, t, fd)
    decreases |es|
  {
    if es != [] {
      assert es[0] in es && forall e :: e in es[1..] ==> e in es;
      if Allowed(s, es[0]) && es[0].t != t {
        StepKeepsGood(s, exact, es[0]);
        WaitingPipeStays(s, exact, es[0], t, fd);
        OthersKeep(Do(s, es[0]), exact, t, fd, es[1..]);
      } else {
        OthersKeep(s, exact, t, fd, es[1..]);
      }
    }
  }

  /** No other task is created without a stack. */
  predicate ExactRun(others: seq<seq<Event>>) { forall es :: es in others ==> AllExact(es) }

  predicate NoReads(es: seq<Event>) { forall e :: e in es ==> !e.Read? }

  predicate NoWrites(es: seq<Event>) { forall e :: e in es ==> !e.Write? }

  /** What others read and write while the task waits is added to the records of its pipe. */
  lemma {:induction false} OthersRecords(s: State, exact: bool, t: int, fd: int, es: seq<Event>)
    requires Good(s, exact) && PipeOf(s, t, fd) != -1
    ensures var p, s' := PipeOf(s, t, fd), Others(s, t, es);
      && p in s.taken && p in s'.taken && s.taken[p] <= s'.taken[p] && (NoReads(es) ==> s'.taken[p] == s.taken[p])
      && p in s.put && p in s'.put && s.put[p] <= s'.put[p] && (NoWrites(es) ==> s'.put[p] == s.put[p])
    decreases |es|
  {
    var p := PipeOf(s, t, fd);
    assert Flow(s, p);
    if es != [] {
      var e := es[0];
      assert e in es && forall x :: x in es[1..] ==> x in es;
      if Allowed(s, e) && e.t != t {
        StepRecords(s, exact, e, p);
        StepKeepsGood(s, exact, e);
        WaitingPipeStays(s, exact, e, t, fd);
        OthersRecords(Do(s, e), exact && Exact(e), t, fd, es[1..]);
      } else {
        OthersRecords(s, exact, t, fd, es[1..]);
      }
    }
  }

  /** `at` gives the places in the record `now`, behind `before`, where the bytes of `buf` are, in order. */
  ghost predicate Picked(buf: seq<int>, at: seq<int>, before: seq<int>, now: seq<int>) {
    && |at| == |buf| && before <= now
    && (forall i :: 0 <= i < |at| ==> |before| <= at[i] < |now| && now[at[i]] == buf[i])
    && (forall i, j :: 0 <= i < j < |at| ==> at[i] < at[j])
  }

  lemma PickedLater(buf: seq<int>, at: seq<int>, before: seq<int>, now: seq<int>, later: seq<int>)
    requires Picked(buf, at, before, now) && now <= later
    ensures Picked(buf, at, before, later)
  {}

  lemma PickedMore(buf: seq<int>, at: seq<int>, before: seq<int>, now: seq<int>, b: int)
    requires Picked(buf, at, before, now)
    ensures Picked(buf + [b], at + [|now|], before, now + [b])
  {}

  /** When the record grew by as many bytes, it grew by exactly these. */
  lemma PickedAll(buf: seq<int>, at: seq<int>, before: seq<int>, now: seq<int>)
    requires Picked(buf, at, before, now) && |now| == |before| + |buf|
    ensures now == before + buf
  {
    forall i | 0 <= i < |buf| ensures at[i] == |before| + i {
      PlaceAtLeast(at, |before|, i);
      PlaceAtMost(at, |now|, i);
    }
    forall i | 0 <= i < |buf| ensures now[|before| + i] == buf[i] { assert now[at[i]] == buf[i]; }
  }

  lemma {:induction false} PlaceAtLeast(at: seq<int>, low: int, i: nat)
    requires i < |at| && (forall k :: 0 <= k < |at| ==> low <= at[k])
    requires forall k, l :: 0 <= k < l < |at| ==> at[k] < at[l]
    ensures at[i] >= low + i
  {
    if i > 0 { PlaceAtLeast(at, low, i - 1); }
  }

  lemma {:induction false} PlaceAtMost(at: seq<int>, high: int, i: nat)
    requires i < |at| && (forall k :: 0 <= k < |at| ==> at[k] < high)
    requires forall k, l :: 0 <= k < l < |at| ==> at[k] < at[l]
    ensures at[i] <= high - (|at| - i)
    decreases |at| - i
  {
    if i + 1 < |at| { PlaceAtMost(at, high, i + 1); }
  }

  lemma GoodWeaken(s: State, exact: bool)
    requires Good(s, exact)
    ensures Good(s, false)
  {
    Weaken(s, exact);
  }

  lemma OneMore(buf: seq<int>, n: nat)
    requires n < |buf|
    ensures buf[..n] + [buf[n]] == buf[..n + 1]
  {}

  datatype Round = NoReader | Done | NoRoom

  class Kernel {
    var files: seq<KFile>
    var tables: map<int, Table>
    var pipes: map<int, Pipe>
    var nextPid: int
    var nextPipe: int
    var freed: seq<int>
    var put: map<int, seq<int>>
    var taken: map<int, seq<int>>

    function Now(): State
      reads this
    {
      State(files, tables, pipes, nextPid, nextPipe, freed, put, taken)
    }

    constructor (pid: int)
      ensures Now() == Start(pid) && Good(Now(), true)
    {
      files := seq(MAX_FILES, _ => KFile(false, 0, false, 0, -1));
      tables := map[pid := seq(MAX_FDS, _ => -1)];
      pipes := map[];
      nextPid, nextPipe := pid + 1, 0;
      freed, put, taken := [], map[], map[];
      new;
      StartGood(pid);
    }

    /** One more or one less holder; a pipe's counter is only touched while the pipe is allocated. */
    method Adjust(i: int, delta: int)
      requires 0 <= i < |files| && (files[i].isPipe ==> files[i].pipe in pipes)
      modifies this
      ensures Now() == Count(old(Now()), i, delta)
    {
      var f := files[i];
      files := files[i := f.(refcount := f.refcount + delta)];
      if f.isPipe {
        var d := pipes[f.pipe];
        if f.mode == O_RDONLY {
          pipes := pipes[f.pipe := d.(readers := d.readers + delta)];
        } else {
          pipes := pipes[f.pipe := d.(writers := d.writers + delta)];
        }
      }
    }

    method FdInherit(child: int, parent: int, ghost exact: bool)
      requires Inv(Now(), exact) && Inherited(Now(), parent, child, 0)
      modifies this
      ensures Now() == InheritTo(old(Now()), parent, child, MAX_FDS)
      ensures Inv(Now(), exact) && Inherited(Now(), parent, child, MAX_FDS)
    {
      ghost var s0 := Now();
      var i := 0;
      while i < MAX_FDS
        invariant 0 <= i <= MAX_FDS
        invariant Now() == InheritTo(s0, parent, child, i)
        invariant Inv(Now(), exact) && Inherited(Now(), parent, child, i)
      {
        InheritKeeps(s0, exact, parent, child, i + 1);
        InheritSlot(child, parent, i, exact);
        i := i + 1;
      }
    }

    /** One round of fd_inherit. */
    method InheritSlot(child: int, parent: int, i: int, ghost exact: bool)
      requires Inv(Now(), exact) && Inherited(Now(), parent, child, i) && i < MAX_FDS
      modifies this
      ensures Now() == Share(old(Now()), parent, i, child, i)
    {
      ghost var s := Now();
      ShareFile(s, exact, parent, i);
      var sysFd := tables[parent][i];
      tables := tables[child := tables[child][i := sysFd]];
      if sysFd != -1 { Adjust(sysFd, 1); }
    }

    /** The child's slot `k` gives up its file and takes the parent's descriptor `fd`. */
    method RedirectSlot(parent: int, fd: int, child: int, k: int, ghost exact: bool)
      requires Inv(Now(), exact) && parent in tables && child in tables && parent != child && 0 <= fd < MAX_FDS
      requires 0 <= k < MAX_FDS
      requires |tables[parent]| == |tables[child]| == MAX_FDS && tables[parent][k] == tables[child][k]
      modifies this
      ensures Now() == Redirect(old(Now()), parent, fd, child, k)
    {
      ghost var s := Now();
      ShareFile(s, exact, child, k);
      ShareFile(s, exact, parent, fd);
      var was := tables[child][k];
      if was != -1 { Adjust(was, -1); }
      var new_ := tables[parent][fd];
      tables := tables[child := tables[child][k := new_]];
      if new_ != -1 { Adjust(new_, 1); }
      RedirectForm(s, parent, fd, child, k);
    }

    /** Slot 0 takes `fdIn`, slots 1 and 2 take `fdOut`, each unless it is -1. */
    method RedirectFds(t: int, fdIn: int, fdOut: int, child: int, ghost exact: bool)
      requires Inv(Now(), exact) && Inherited(Now(), t, child, MAX_FDS) && -1 <= fdIn < MAX_FDS && -1 <= fdOut < MAX_FDS
      modifies this
      ensures Now() == Redirected(old(Now()), t, fdIn, fdOut, child)
    {
      if fdIn != -1 {
        RedirectKeeps(Now(), exact, t, fdIn, child, 0);
        RedirectSlot(t, fdIn, child, 0, exact);
      }
      if fdOut != -1 {
        RedirectKeeps(Now(), exact, t, fdOut, child, 1);
        RedirectSlot(t, fdOut, child, 1, exact);
        RedirectKeeps(Now(), exact, t, fdOut, child, 2);
        RedirectSlot(t, fdOut, child, 2, exact);
      }
    }

    method CreateProcess(t: int, fdIn: int, fdOut: int, stackOk: bool, ghost exact: bool) returns (pid: int)
      requires Good(Now(), exact) && t in tables && -1 <= fdIn < MAX_FDS && -1 <= fdOut < MAX_FDS
      modifies this
      ensures Now() == Do(old(Now()), Spawn(t, fdIn, fdOut, stackOk)) && Good(Now(), exact && stackOk)
      ensures pid == if stackOk then old(nextPid) else -1
    {
      StepKeepsGood(Now(), exact, Spawn(t, fdIn, fdOut, stackOk));
      var child := GiveFds(t, fdIn, fdOut, exact);
      pid := child;
      if !stackOk {
        tables := tables - {child};
        pid := -1;
      }
    }

    /** A new task gets its descriptors. */
    method GiveFds(t: int, fdIn: int, fdOut: int, ghost exact: bool) returns (child: int)
      requires Inv(Now(), exact) && t in tables && -1 <= fdIn < MAX_FDS && -1 <= fdOut < MAX_FDS
      modifies this
      ensures Now() == DoSpawn(old(Now()), t, fdIn, fdOut, true) && child == old(nextPid)
    {
      ghost var s := Now();
      NewTaskKeeps(s, exact);
      assert TableOK(s, t);
      child := nextPid;
      nextPid := nextPid + 1;
      tables := tables[child := seq(MAX_FDS, _ => -1)];
      assert Now() == NewTask(s);
      FdInherit(child, t, exact);
      RedirectFds(t, fdIn, fdOut, child, exact);
    }

    method FindFd(t: int, from: nat) returns (fd: int)
      requires t in tables
      ensures fd == FreeFd(tables[t], from)
    {
      fd := from;
      while fd < |tables[t]|
        invariant from <= fd && FreeFd(tables[t], from) == FreeFd(tables[t], fd)
      {
        if tables[t][fd] == -1 { return; }
        fd := fd + 1;
      }
      fd := -1;
    }

    method FindFile(from: nat) returns (i: int)
      ensures i == FreeFile(files, from)
    {
      i := from;
      while i < |files|
        invariant from <= i && FreeFile(files, from) == FreeFile(files, i)
      {
        if !files[i].inUse { return; }
        i := i + 1;
      }
      i := -1;
    }

    /** `size` is what the file system says of the path. */
    method SysOpen(t: int, size: int, flags: nat, ghost exact: bool) returns (fd: int)
      requires Good(Now(), exact) && t in tables
      modifies this
      ensures Now() == Do(old(Now()), Open(t, size > 0 || MayCreate(flags), flags)) && Good(Now(), exact)
      ensures fd == OpenResult(old(Now()), t, size > 0 || MayCreate(flags))
      ensures size <= 0 && flags / 0x200 % 2 == 0 ==> fd == -1 && Now() == old(Now())
      ensures size > 0 || flags / 0x200 % 2 == 1 ==> fd == OpenResult(old(Now()), t, true)
    {
      StepKeepsGood(Now(), exact, Open(t, size > 0 || MayCreate(flags), flags));
      fd := FindFd(t, FIRST_FD);
      if fd == -1 { return; }
      var i := FindFile(0);
      if i == -1 || (size <= 0 && !MayCreate(flags)) { fd := -1; return; }
      files := files[i := files[i].(inUse := true, refcount := 1, isPipe := false, mode := flags)];
      tables := tables[t := tables[t][fd := i]];
    }

    /** The pipe is allocated and its two ends are entered. */
    method PlacePipe(t: int, fd0: int, fd1: int, i: int, j: int)
      requires t in tables && 0 <= fd0 < |tables[t]| && 0 <= fd1 < |tables[t]| && 0 <= i < |files| && 0 <= j < |files|
      modifies this
      ensures Now() == EnterPipe(old(Now()), t, fd0, fd1, i, j)
    {
      var p := nextPipe;
      nextPipe := p + 1;
      pipes := pipes[p := NewPipe()];
      put, taken := put[p := []], taken[p := []];
      files := files[i := PipeEnd(p, O_RDONLY)][j := PipeEnd(p, O_WRONLY)];
      tables := tables[t := tables[t][fd0 := i][fd1 := j]];
    }

    method SysPipe(t: int, ghost exact: bool) returns (r: int, fd0: int, fd1: int)
      requires Good(Now(), exact) && t in tables
      modifies this
      ensures Now() == Do(old(Now()), MakePipe(t)) && Good(Now(), exact)
      ensures r == if PipeFds(old(Now()), t).1 == -1 || PipeFiles(old(Now())).1 == -1 then -1 else 0
      ensures r == 0 ==> (fd0, fd1) == PipeFds(old(Now()), t)
    {
      StepKeepsGood(Now(), exact, MakePipe(t));
      r, fd1 := -1, -1;
      fd0 := FindFd(t, FIRST_FD);
      if fd0 != -1 { fd1 := FindFd(t, fd0 + 1); }
      if fd1 == -1 { return; }
      var i := FindFile(0);
      var j := -1;
      if i != -1 { j := FindFile(i + 1); }
      if j == -1 { return; }
      PlacePipe(t, fd0, fd1, i, j);
      r := 0;
    }

    method SysClose(t: int, fd: int, ghost exact: bool) returns (r: int)
      requires Inv(Now(), exact) && t in tables
      modifies this
      ensures Now() == DoClose(old(Now()), t, fd) && Inv(Now(), exact)
      ensures r == if IsOpen(old(Now()), t, fd) then 0 else -1
    {
      ghost var s := Now();
      assert TableOK(s, t);
      r := -1;
      if fd < 0 || fd >= MAX_FDS { return; }
      var i := tables[t][fd];
      if i == -1 { return; }
      CloseKeeps(s, exact, t, fd);
      ShareFile(s, exact, t, fd);
      tables := tables[t := tables[t][fd := -1]];
      Adjust(i, -1);
      assert Now() == Detach(s, t, fd);
      LetGo(i);
      r := 0;
    }

    /** The end of sys_close: the pipe goes with its last end, the file with its last reference. */
    method LetGo(i: int)
      requires 0 <= i < |files| && files[i].inUse && (files[i].isPipe ==> files[i].pipe in pipes)
      modifies this
      ensures Now() == Release(old(Now()), i)
    {
      var f := files[i];
      if f.isPipe && pipes[f.pipe].readers <= 0 && pipes[f.pipe].writers <= 0 {
        pipes := pipes - {f.pipe};
        freed := freed + [f.pipe];
        files := files[i := f.(pipe := -1)];
      }
      if f.refcount <= 0 { files := files[i := files[i].(inUse := false)]; }
    }

    method CloseOne(t: int, fd: int, ghost exact: bool)
      requires Inv(Now(), exact) && t in tables && 0 <= fd < |tables[t]| == MAX_FDS
      modifies this
      ensures Now() == DoClose(old(Now()), t, fd) && Inv(Now(), exact) && t in tables && |tables[t]| == MAX_FDS
    {
      DoCloseKeeps(Now(), exact, t, fd);
      if tables[t][fd] != -1 { var _ := SysClose(t, fd, exact); }
    }

    /** The closing loop of exit_process, over the first `n` descriptors. */
    method CloseAll(t: int, n: nat, ghost exact: bool)
      requires Inv(Now(), exact) && t in tables && n <= MAX_FDS
      modifies this
      ensures Now() == ClosedTo(old(Now()), t, n) && t in tables
    {
      ghost var s := Now();
      assert TableOK(s, t);
      var i := 0;
      while i < n
        invariant 0 <= i <= n && t in tables && |tables[t]| == MAX_FDS
        invariant Now() == ClosedTo(s, t, i) && Inv(Now(), exact)
      {
        ghost var was := Now();
        CloseOne(t, i, exact);
        ClosedNext(s, t, i, was, Now());
        i := i + 1;
      }
    }

    method ExitProcess(t: int, ghost exact: bool)
      requires Good(Now(), exact) && t in tables
      modifies this
      ensures Now() == Do(old(Now()), Exit(t)) && Good(Now(), exact)
    {
      StepKeepsGood(Now(), exact, Exit(t));
      CloseAll(t, MAX_FDS, exact);
      tables := tables - {t};
    }

    /** One iteration of the read loop that gets a byte. */
    method ReadByte(t: int, fd: int, ghost exact: bool) returns (b: int)
      requires Good(Now(), exact) && PipeOf(Now(), t, fd) != -1 && Flow(Now(), PipeOf(Now(), t, fd))
      requires pipes[PipeOf(Now(), t, fd)].count > 0
      modifies this
      ensures Now() == DoRead(old(Now()), t, fd)
      ensures Good(Now(), exact) && PipeOf(Now(), t, fd) == old(PipeOf(Now(), t, fd))
      ensures Flow(Now(), PipeOf(Now(), t, fd))
      ensures old(Content(pipes[PipeOf(Now(), t, fd)])) == [b] + Content(pipes[PipeOf(Now(), t, fd)])
      ensures var p := PipeOf(Now(), t, fd); p in old(taken) && taken[p] == old(taken)[p] + [b]
    {
      ReadStep(Now(), t, fd, exact);
      var p := PipeOf(Now(), t, fd);
      var d := pipes[p];
      b := d.buffer[d.head];
      taken := taken[p := taken[p] + [b]];
      pipes := pipes[p := d.(head := (d.head + 1) % RING, count := d.count - 1)];
    }

    /** One iteration of the write loop that finds room. */
    method WriteByte(t: int, fd: int, b: int, ghost exact: bool)
      requires Good(Now(), exact) && PipeOf(Now(), t, fd) != -1 && Flow(Now(), PipeOf(Now(), t, fd))
      requires pipes[PipeOf(Now(), t, fd)].count < RING && pipes[PipeOf(Now(), t, fd)].readers > 0
      modifies this
      ensures Now() == DoWrite(old(Now()), t, fd, b)
      ensures Good(Now(), exact) && PipeOf(Now(), t, fd) == old(PipeOf(Now(), t, fd))
      ensures Flow(Now(), PipeOf(Now(), t, fd))
      ensures Content(pipes[PipeOf(Now(), t, fd)]) == old(Content(pipes[PipeOf(Now(), t, fd)])) + [b]
      ensures var p := PipeOf(Now(), t, fd); p in old(put) && put[p] == old(put)[p] + [b]
    {
      WriteStep(Now(), t, fd, b, exact);
      var p := PipeOf(Now(), t, fd);
      var d := pipes[p];
      put := put[p := put[p] + [b]];
      pipes := pipes[p := d.(buffer := d.buffer[d.tail := b], tail := (d.tail + 1) % RING, count := d.count + 1)];
    }

    /** Other tasks run: at a yield, or because the timer takes the processor away. */
    method Yield(t: int, fd: int, es: seq<Event>, ghost exact: bool)
      requires Good(Now(), exact) && PipeOf(Now(), t, fd) != -1 && (exact ==> AllExact(es))
      modifies this
      ensures Now() == Others(old(Now()), t, es)
      ensures Good(Now(), exact) && PipeOf(Now(), t, fd) == old(PipeOf(Now(), t, fd))
      ensures Flow(Now(), PipeOf(Now(), t, fd))
    {
      OthersKeep(Now(), exact, t, fd, es);
      var s := Others(Now(), t, es);
      files, tables, pipes, nextPid, nextPipe := s.files, s.tables, s.pipes, s.nextPid, s.nextPipe;
      freed, put, taken := s.freed, s.put, s.taken;
      assert Flow(Now(), PipeOf(Now(), t, fd));
    }

    /** The tasks of `others[n]`, if there are any left, run. */
    method Preempt(t: int, fd: int, others: seq<seq<Event>>, n: nat, ghost exact: bool) returns (n': nat)
      requires Good(Now(), exact) && PipeOf(Now(), t, fd) != -1 && n <= |others| && (exact ==> ExactRun(others))
      modifies this
      ensures Good(Now(), exact) && PipeOf(Now(), t, fd) == old(PipeOf(Now(), t, fd))
      ensures Flow(Now(), PipeOf(Now(), t, fd))
      ensures n' == if n < |others| then n + 1 else n
      ensures n == |others| ==> Now() == old(Now())
      ensures var p := PipeOf(Now(), t, fd);
        && p in old(taken) && old(taken)[p] <= taken[p] && p in old(put) && old(put)[p] <= put[p]
        && (n < |others| && NoReads(others[n]) ==> taken[p] == old(taken)[p])
        && (n < |others| && NoWrites(others[n]) ==> put[p] == old(put)[p])
    {
      assert Flow(Now(), PipeOf(Now(), t, fd));
      n' := n;
      if n < |others| {
        OthersRecords(Now(), exact, t, fd, others[n]);
        Yield(t, fd, others[n], exact);
        n' := n + 1;
      }
    }

    /** What a read got so far: its bytes are in the record of bytes taken, in order. */
    ghost predicate Reading(s0: State, t: int, fd: int, buf: seq<int>, at: seq<int>, others: seq<seq<Event>>,
                            exact: bool)
      requires PipeOf(s0, t, fd) in s0.taken && PipeOf(s0, t, fd) in s0.pipes && RingOK(s0.pipes[PipeOf(s0, t, fd)])
      reads this
    {
      var p := PipeOf(s0, t, fd);
      && Good(Now(), exact) && (exact ==> ExactRun(others))
      && PipeOf(Now(), t, fd) == p && p in pipes && Flow(Now(), p)
      && Picked(buf, at, s0.taken[p], taken[p])
      && ((forall es :: es in others ==> NoReads(es)) ==> |taken[p]| == |s0.taken[p]| + |buf|)
      && (others == [] ==> Content(s0.pipes[p]) == buf + Content(pipes[p]))
    }

    /**
     sys_read_fd on a pipe.  Before its n-th round the tasks of `others[n]` run; it is still
     `waiting` if these are used up and the ring is empty.  `at` says where in the record of
     bytes taken from the pipe the bytes of this call are.
     */
    method SysReadPipe(t: int, fd: int, count: nat, others: seq<seq<Event>>, ghost exact: bool)
      returns (r: int, buf: seq<int>, waiting: bool, ghost at: seq<int>)
      requires Good(Now(), exact) && PipeOf(Now(), t, fd) != -1
      modifies this
      ensures Good(Now(), exact && ExactRun(others)) && PipeOf(Now(), t, fd) == old(PipeOf(Now(), t, fd))
      ensures count > 0 ==> r == |buf| <= count
      ensures count > 0 && |buf| < count && !waiting ==> AtEnd(Now(), old(PipeOf(Now(), t, fd)))
      ensures waiting ==> |buf| < count
      ensures count == 0 ==> Now() == old(Now()) && (r == -1 <==> AtEnd(Now(), PipeOf(Now(), t, fd)))
      ensures count == 0 && r != -1 ==> r == pipes[PipeOf(Now(), t, fd)].count
      ensures var p := PipeOf(Now(), t, fd);
        && p in old(taken) && p in taken && Picked(buf, at, old(taken)[p], taken[p])
        && ((forall es :: es in others ==> NoReads(es)) ==> taken[p] == old(taken)[p] + buf)
      ensures others == [] ==>
        var p := PipeOf(Now(), t, fd);
        && RingOK(old(pipes)[p]) && RingOK(pipes[p]) && Content(old(pipes)[p]) == buf + Content(pipes[p])
        && (|buf| < count ==> pipes[p].count == 0)
    {
      GoodWeaken(Now(), exact);
      ghost var x := exact && ExactRun(others);
      var p := PipeOf(Now(), t, fd);
      assert Flow(Now(), p);
      ghost var s0 := Now();
      r, buf, waiting, at := 0, [], false, [];
      if count == 0 {
        if pipes[p].count > 0 { r := pipes[p].count; } else if pipes[p].writers <= 0 { r := -1; }
        assert taken[p] == taken[p] + [];
        assert Content(pipes[p]) == [] + Content(pipes[p]);
        return;
      }
      buf, waiting, at := ReadRounds(t, fd, count, others, s0, x);
      r := |buf|;
      if forall es :: es in others ==> NoReads(es) { PickedAll(buf, at, s0.taken[p], taken[p]); }
    }

    /** The loop of sys_read_fd. */
    method ReadRounds(t: int, fd: int, count: nat, others: seq<seq<Event>>, ghost s0: State, ghost exact: bool)
      returns (buf: seq<int>, waiting: bool, ghost at: seq<int>)
      requires Good(Now(), exact) && PipeOf(Now(), t, fd) != -1 && s0 == Now() && Flow(Now(), PipeOf(Now(), t, fd))
      requires exact ==> ExactRun(others)
      modifies this
      ensures Reading(s0, t, fd, buf, at, others, exact) && |buf| <= count
      ensures |buf| < count && !waiting ==> AtEnd(Now(), PipeOf(s0, t, fd))
      ensures waiting ==> |buf| < count
      ensures others == [] && |buf| < count ==> pipes[PipeOf(s0, t, fd)].count == 0
    {
      var p := PipeOf(Now(), t, fd);
      buf, waiting, at := [], false, [];
      assert Content(pipes[p]) == [] + Content(pipes[p]);
      var n := 0;
      while |buf| < count
        invariant 0 <= n <= |others| && |buf| <= count
        invariant Reading(s0, t, fd, buf, at, others, exact)
        decreases count - |buf| + |others| - n
      {
        var n' := ReadPreempt(t, fd, others, n, buf, at, s0, exact);
        if pipes[p].count > 0 {
          var b := ReadNext(t, fd, buf, at, others, s0, exact);
          at := at + [|taken[p]| - 1];
          buf := buf + [b];
        } else if pipes[p].writers <= 0 {
          break;
        } else if n' == n {
          waiting := true;
          break;
        }
        n := n';
      }
    }

    method ReadPreempt(t: int, fd: int, others: seq<seq<Event>>, n: nat, ghost buf: seq<int>, ghost at: seq<int>,
                       ghost s0: State, ghost exact: bool)
      returns (n': nat)
      requires PipeOf(s0, t, fd) in s0.taken && PipeOf(s0, t, fd) in s0.pipes && RingOK(s0.pipes[PipeOf(s0, t, fd)])
      requires PipeOf(s0, t, fd) != -1 && n <= |others| && Reading(s0, t, fd, buf, at, others, exact)
      modifies this
      ensures Reading(s0, t, fd, buf, at, others, exact) && n' == if n < |others| then n + 1 else n
    {
      ghost var p := PipeOf(Now(), t, fd);
      ghost var was := taken[p];
      if n < |others| { assert others[n] in others; }
      n' := Preempt(t, fd, others, n, exact);
      PickedLater(buf, at, s0.taken[p], was, taken[p]);
    }

    method ReadNext(t: int, fd: int, ghost buf: seq<int>, ghost at: seq<int>, ghost others: seq<seq<Event>>,
                    ghost s0: State, ghost exact: bool)
      returns (b: int)
      requires PipeOf(s0, t, fd) in s0.taken && PipeOf(s0, t, fd) in s0.pipes && RingOK(s0.pipes[PipeOf(s0, t, fd)])
      requires PipeOf(s0, t, fd) != -1 && Reading(s0, t, fd, buf, at, others, exact)
      requires pipes[PipeOf(s0, t, fd)].count > 0
      modifies this
      ensures PipeOf(s0, t, fd) in taken
      ensures Reading(s0, t, fd, buf + [b], at + [|taken[PipeOf(s0, t, fd)]| - 1], others, exact)
    {
      ghost var p := PipeOf(Now(), t, fd);
      ghost var c, was := Content(pipes[p]), taken[p];
      b := ReadByte(t, fd, exact);
      PickedMore(buf, at, s0.taken[p], was, b);
      assert buf + c == buf + [b] + Content(pipes[p]);
    }

    /** What a write put so far: its bytes are in the record of bytes put, in order. */
    ghost predicate Writing(s0: State, t: int, fd: int, done: seq<int>, at: seq<int>, others: seq<seq<Event>>,
                            exact: bool)
      requires PipeOf(s0, t, fd) in s0.put && PipeOf(s0, t, fd) in s0.pipes && RingOK(s0.pipes[PipeOf(s0, t, fd)])
      reads this
    {
      var p := PipeOf(s0, t, fd);
      && Good(Now(), exact) && (exact ==> ExactRun(others))
      && PipeOf(Now(), t, fd) == p && p in pipes && Flow(Now(), p)
      && Picked(done, at, s0.put[p], put[p])
      && ((forall es :: es in others ==> NoWrites(es)) ==> |put[p]| == |s0.put[p]| + |done|)
      && (others == [] ==> Content(pipes[p]) == Content(s0.pipes[p]) + done)
    }

    /** sys_write_fd on a pipe; `written` is how far it got, and `at` where its bytes are in the record of bytes put. */
    method SysWritePipe(t: int, fd: int, buf: seq<int>, others: seq<seq<Event>>, ghost exact: bool)
      returns (r: int, written: nat, waiting: bool, ghost at: seq<int>)
      requires Good(Now(), exact) && PipeOf(Now(), t, fd) != -1
      modifies this
      ensures Good(Now(), exact && ExactRun(others)) && PipeOf(Now(), t, fd) == old(PipeOf(Now(), t, fd))
      ensures written <= |buf|
      ensures !waiting ==>
        if r == -1 then written < |buf| && pipes[PipeOf(Now(), t, fd)].readers <= 0 else r == written == |buf|
      ensures waiting ==>
        written < |buf| && pipes[PipeOf(Now(), t, fd)].count == RING && pipes[PipeOf(Now(), t, fd)].readers > 0
      ensures var p := PipeOf(Now(), t, fd);
        && p in old(put) && p in put && Picked(buf[..written], at, old(put)[p], put[p])
        && ((forall es :: es in others ==> NoWrites(es)) ==> put[p] == old(put)[p] + buf[..written])
      ensures others == [] ==>
        var p := PipeOf(Now(), t, fd);
        RingOK(old(pipes)[p]) && RingOK(pipes[p]) && Content(pipes[p]) == Content(old(pipes)[p]) + buf[..written]
    {
      GoodWeaken(Now(), exact);
      ghost var x := exact && ExactRun(others);
      var p := PipeOf(Now(), t, fd);
      assert Flow(Now(), p);
      ghost var s0 := Now();
      assert Content(pipes[p]) == Content(pipes[p]) + [];
      ghost var done;
      r, written, waiting, done, at := WriteRounds(t, fd, buf, others, s0, x);
      if forall es :: es in others ==> NoWrites(es) { PickedAll(buf[..written], at, s0.put[p], put[p]); }
    }

    /** The loop of sys_write_fd. */
    method WriteRounds(t: int, fd: int, buf: seq<int>, others: seq<seq<Event>>, ghost s0: State, ghost exact: bool)
      returns (r: int, written: nat, waiting: bool, ghost done: seq<int>, ghost at: seq<int>)
      requires PipeOf(s0, t, fd) in s0.put && PipeOf(s0, t, fd) in s0.pipes && RingOK(s0.pipes[PipeOf(s0, t, fd)])
      requires PipeOf(s0, t, fd) != -1 && Writing(s0, t, fd, [], [], others, exact)
      modifies this
      ensures written <= |buf| && done == buf[..written] && Writing(s0, t, fd, done, at, others, exact)
      ensures !waiting ==>
        if r == -1 then written < |buf| && pipes[PipeOf(s0, t, fd)].readers <= 0 else r == written == |buf|
      ensures waiting ==>
        written < |buf| && pipes[PipeOf(s0, t, fd)].count == RING && pipes[PipeOf(s0, t, fd)].readers > 0
    {
      r, written, waiting, done, at := -1, 0, false, [], [];
      var n := 0;
      while written < |buf|
        invariant 0 <= n <= |others| && written <= |buf| && done == buf[..written]
        invariant Writing(s0, t, fd, done, at, others, exact)
        decreases |buf| - written + |others| - n
      {
        var n', did;
        n', did, at := WriteRound(t, fd, buf[written], others, n, done, at, s0, exact);
        if did == NoReader { return; }
        if did == Done {
          OneMore(buf, written);
          done := done + [buf[written]];
          written := written + 1;
        } else if n' == n {
          waiting := true;
          return;
        }
        n := n';
      }
      r := written;
    }

    /** One round: others run, and then there is no reader, or the byte goes into the ring, or it has no room. */
    method WriteRound(t: int, fd: int, b: int, others: seq<seq<Event>>, n: nat, ghost done: seq<int>,
                      ghost at: seq<int>, ghost s0: State, ghost exact: bool)
      returns (n': nat, did: Round, ghost at': seq<int>)
      requires PipeOf(s0, t, fd) in s0.put && PipeOf(s0, t, fd) in s0.pipes && RingOK(s0.pipes[PipeOf(s0, t, fd)])
      requires PipeOf(s0, t, fd) != -1 && n <= |others| && Writing(s0, t, fd, done, at, others, exact)
      modifies this
      ensures n' == if n < |others| then n + 1 else n
      ensures Writing(s0, t, fd, if did == Done then done + [b] else done, at', others, exact)
      ensures did == NoReader ==> pipes[PipeOf(s0, t, fd)].readers <= 0
      ensures did == NoRoom ==> pipes[PipeOf(s0, t, fd)].count == RING && pipes[PipeOf(s0, t, fd)].readers > 0
    {
      var p := PipeOf(Now(), t, fd);
      n' := WritePreempt(t, fd, others, n, done, at, s0, exact);
      at' := at;
      if pipes[p].readers <= 0 {
        did := NoReader;
      } else if pipes[p].count < RING {
        WriteNext(t, fd, b, done, at, others, s0, exact);
        at', did := at + [|put[p]| - 1], Done;
      } else {
        did := NoRoom;
      }
    }

    method WritePreempt(t: int, fd: int, others: seq<seq<Event>>, n: nat, ghost done: seq<int>, ghost at: seq<int>,
                        ghost s0: State, ghost exact: bool)
      returns (n': nat)
      requires PipeOf(s0, t, fd) in s0.put && PipeOf(s0, t, fd) in s0.pipes && RingOK(s0.pipes[PipeOf(s0, t, fd)])
      requires PipeOf(s0, t, fd) != -1 && n <= |others| && Writing(s0, t, fd, done, at, others, exact)
      modifies this
      ensures Writing(s0, t, fd, done, at, others, exact) && n' == if n < |others| then n + 1 else n
    {
      ghost var p := PipeOf(Now(), t, fd);
      ghost var was := put[p];
      if n < |others| { assert others[n] in others; }
      n' := Preempt(t, fd, others, n, exact);
      PickedLater(done, at, s0.put[p], was, put[p]);
    }

    method WriteNext(t: int, fd: int, b: int, ghost done: seq<int>, ghost at: seq<int>, ghost others: seq<seq<Event>>,
                     ghost s0: State, ghost exact: bool)
      requires PipeOf(s0, t, fd) in s0.put && PipeOf(s0, t, fd) in s0.pipes && RingOK(s0.pipes[PipeOf(s0, t, fd)])
      requires PipeOf(s0, t, fd) != -1 && Writing(s0, t, fd, done, at, others, exact)
      requires pipes[PipeOf(s0, t, fd)].count < RING && pipes[PipeOf(s0, t, fd)].readers > 0
      modifies this
      ensures PipeOf(s0, t, fd) in put
      ensures Writing(s0, t, fd, done + [b], at + [|put[PipeOf(s0, t, fd)]| - 1], others, exact)
    {
      ghost var p := PipeOf(Now(), t, fd);
      ghost var c, c0, was := Content(pipes[p]), Content(s0.pipes[p]), put[p];
      WriteByte(t, fd, b, exact);
      PickedMore(done, at, s0.put[p], was, b);
      assert c0 + done + [b] == c0 + (done + [b]);
    }
  }

  lemma ClosedNext(s: State, t: int, i: nat, s1: State, s2: State)
    requires s1 == ClosedTo(s, t, i) && s2 == DoClose(s1, t, i)
    ensures s2 == ClosedTo(s, t, i + 1)
  {}

  lemma ReadStep(s: State, t: int, fd: int, exact: bool)
    requires Good(s, exact) && PipeOf(s, t, fd) != -1 && s.pipes[PipeOf(s, t, fd)].count > 0
    ensures var p, s' := PipeOf(s, t, fd), DoRead(s, t, fd);
      && RingOK(s.pipes[p]) && p in s.taken && s'.pipes == s.pipes[p := TakeByte(s.pipes[p])]
      && Good(s', exact) && PipeOf(s', t, fd) == p && Flow(s', p)
      && Content(s.pipes[p]) == [Content(s.pipes[p])[0]] + Content(s'.pipes[p])
  {
    var p := PipeOf(s, t, fd);
    assert Flow(s, p);
    StepKeepsGood(s, exact, Read(t, fd));
    TakeRemoves(s.pipes[p]);
    assert Flow(DoRead(s, t, fd), p);
  }

  lemma WriteStep(s: State, t: int, fd: int, b: int, exact: bool)
    requires Good(s, exact) && PipeOf(s, t, fd) != -1
    requires s.pipes[PipeOf(s, t, fd)].count < RING && s.pipes[PipeOf(s, t, fd)].readers > 0
    ensures var p, s' := PipeOf(s, t, fd), DoWrite(s, t, fd, b);
      && RingOK(s.pipes[p]) && p in s.put && s'.pipes == s.pipes[p := PutByte(s.pipes[p], b)]
      && Good(s', exact) && PipeOf(s', t, fd) == p && Flow(s', p)
      && Content(s'.pipes[p]) == Content(s.pipes[p]) + [b]
  {
    var p := PipeOf(s, t, fd);
    assert Flow(s, p);
    StepKeepsGood(s, exact, Write(t, fd, b));
    PutAppends(s.pipes[p], b);
    assert Flow(DoWrite(s, t, fd, b), p);
  }

  /** A descriptor names no file, or one in use whose pipe is allocated. */
  lemma ShareFile(s: State, exact: bool, t: int, fd: int)
    requires Inv(s, exact) && t in s.tables && 0 <= fd < |s.tables[t]|
    ensures s.tables[t][fd] == -1 || IsOpen(s, t, fd)
    ensures IsOpen(s, t, fd) ==>
      var f := s.files[s.tables[t][fd]]; f.inUse && f.refcount >= 1 && (f.isPipe ==> f.pipe in s.pipes)
  {
    assert TableOK(s, t);
    if IsOpen(s, t, fd) { assert FileOK(s, exact, s.tables[t][fd]); }
  }

  /** A redirection without the empty slot in between. */
  lemma RedirectForm(s: State, t: int, fd: int, u: int, k: int)
    requires t in s.tables && u in s.tables && t != u && 0 <= fd < |s.tables[t]| && 0 <= k < |s.tables[u]|
    requires (s.tables[u][k] == -1 || IsOpen(s, u, k)) && (s.tables[t][fd] == -1 || IsOpen(s, t, fd))
    ensures var s1 := if s.tables[u][k] == -1 then s else Count(s, s.tables[u][k], -1);
      var s2 := SetSlot(s1, u, k, s.tables[t][fd]);
      Redirect(s, t, fd, u, k) == if s.tables[t][fd] == -1 then s2 else Count(s2, s.tables[t][fd], 1)
  {
    var s1 := if s.tables[u][k] == -1 then s else SetSlot(Count(s, s.tables[u][k], -1), u, k, -1);
    var s2 := if s.tables[u][k] == -1 then s else Count(s, s.tables[u][k], -1);
    var i := s.tables[t][fd];
    assert s.tables[u][k := -1][k := i] == s.tables[u][k := i];
    assert SetSlot(s1, u, k, i) == SetSlot(s2, u, k, i);
    assert Redirect(s, t, fd, u, k) == if i == -1 then SetSlot(s1, u, k, -1) else SetSlot(Count(s1, i, 1), u, k, i);
    if i != -1 {
      CountSlot(s1, u, k, i);
      CountSlot(s2, u, k, i);
    }
  }

  /** Counting and setting a slot commute. */
  lemma CountSlot(s: State, u: int, k: int, i: int)
    requires u in s.tables && 0 <= k < |s.tables[u]| && 0 <= i < |s.files|
    ensures SetSlot(Count(s, i, 1), u, k, i) == Count(SetSlot(s, u, k, i), i, 1)
  {}
}
