/**
 Pipes over whole runs: bytes come out in the order they went in, a pipe is freed
 at most once, and a pipe that lost its writers never gets one again.
 */
module PipeRuns {
  import opened DescriptorSpec
  import opened DescriptorRuns

  // ----- Steps that move no byte -----

  predicate SameRing(d: Pipe, d': Pipe) {
    d'.buffer == d.buffer && d'.head == d.head && d'.tail == d.tail && d'.count == d.count
  }

  /** A pipe side without holders gets none. */
  predicate NoRevival(d: Pipe, d': Pipe) {
    (d.writers <= 0 ==> d'.writers <= 0) && (d.readers <= 0 ==> d'.readers <= 0)
  }

  /** How often pipe `p` is accounted for: as allocated, and in the log of freed pipes. */
  ghost function Copies(s: State, p: int): int {
    multiset(s.freed)[p] + if p in s.pipes then 1 else 0
  }

  ghost predicate PipeKept(s: State, s': State, p: int) {
    && (p in s'.pipes ==> p in s.pipes && SameRing(s.pipes[p], s'.pipes[p]) && NoRevival(s.pipes[p], s'.pipes[p]))
    && Copies(s', p) == Copies(s, p)
  }

  /** A file in use after a step was in use before, for the same thing. */
  ghost predicate FileKept(s: State, s': State, i: int) {
    0 <= i < |s.files| && i < |s'.files| && s'.files[i].inUse ==>
      && s.files[i].inUse && s'.files[i].isPipe == s.files[i].isPipe
      && s'.files[i].mode == s.files[i].mode && (s.files[i].isPipe ==> s'.files[i].pipe == s.files[i].pipe)
  }

  ghost predicate Quiet(s: State, s': State) {
    && s'.put == s.put && s'.taken == s.taken && s'.nextPipe == s.nextPipe && |s'.files| == |s.files|
    && (forall p {:trigger PipeKept(s, s', p)} :: PipeKept(s, s', p))
    && (forall i {:trigger FileKept(s, s', i)} :: FileKept(s, s', i))
  }

  lemma QuietTrans(s: State, s1: State, s2: State)
    requires Quiet(s, s1) && Quiet(s1, s2)
    ensures Quiet(s, s2)
  {
    forall p ensures PipeKept(s, s2, p) { assert PipeKept(s, s1, p) && PipeKept(s1, s2, p); }
    forall i ensures FileKept(s, s2, i) { assert FileKept(s, s1, i) && FileKept(s1, s2, i); }
  }

  /** Counting up or down an end that is held never brings a dead side back. */
  lemma CountQuiet(s: State, exact: bool, i: int, delta: int)
    requires Inv(s, exact) && 0 <= i < |s.files| && s.files[i].inUse
    ensures Quiet(s, Count(s, i, delta))
  {
    var s' := Count(s, i, delta);
    assert FileOK(s, exact, i);
    if s.files[i].isPipe {
      assert PipeOK(s, s.files[i].pipe);
      assert IsEnd(s.files[i], s.files[i].pipe, s.files[i].mode == O_RDONLY);
    }
    forall p ensures PipeKept(s, s', p) {}
    forall j ensures FileKept(s, s', j) {}
  }

  lemma SlotQuiet(s: State, t: int, k: int, i: int)
    requires t in s.tables && 0 <= k < |s.tables[t]|
    ensures Quiet(s, SetSlot(s, t, k, i))
  {
    forall p ensures PipeKept(s, SetSlot(s, t, k, i), p) {}
    forall j ensures FileKept(s, SetSlot(s, t, k, i), j) {}
  }

  lemma AttachQuiet(s: State, exact: bool, t: int, k: int, i: int)
    requires Inv(s, exact) && t in s.tables && 0 <= k < |s.tables[t]| && 0 <= i < |s.files| && s.files[i].inUse
    ensures Quiet(s, Attach(s, t, k, i))
  {
    CountQuiet(s, exact, i, 1);
    SlotQuiet(Count(s, i, 1), t, k, i);
    QuietTrans(s, Count(s, i, 1), Attach(s, t, k, i));
  }

  lemma DetachQuiet(s: State, exact: bool, t: int, k: int)
    requires Inv(s, exact) && IsOpen(s, t, k)
    ensures Quiet(s, Detach(s, t, k))
  {
    var i := s.tables[t][k];
    assert TableOK(s, t);
    CountQuiet(s, exact, i, -1);
    SlotQuiet(Count(s, i, -1), t, k, -1);
    QuietTrans(s, Count(s, i, -1), Detach(s, t, k));
  }

  lemma ReleaseQuiet(s: State, i: int)
    requires 0 <= i < |s.files| && s.files[i].inUse
    requires s.files[i].isPipe ==>
      && s.files[i].pipe in s.pipes
      && (s.files[i].refcount <= 0 || 0 < s.pipes[s.files[i].pipe].readers || 0 < s.pipes[s.files[i].pipe].writers)
    ensures Quiet(s, Release(s, i))
  {
    var s' := Release(s, i);
    forall p ensures PipeKept(s, s', p) {}
    forall j ensures FileKept(s, s', j) {}
  }

  lemma CloseQuiet(s: State, exact: bool, t: int, k: int)
    requires Inv(s, exact) && t in s.tables && 0 <= k < |s.tables[t]|
    ensures Quiet(s, DoClose(s, t, k))
  {
    if IsOpen(s, t, k) {
      var i := s.tables[t][k];
      var s1 := Detach(s, t, k);
      assert TableOK(s, t) && FileOK(s, exact, i);
      DetachQuiet(s, exact, t, k);
      if s.files[i].isPipe {
        assert PipeOK(s, s.files[i].pipe);
        assert IsEnd(s.files[i], s.files[i].pipe, s.files[i].mode == O_RDONLY);
      }
      ReleaseQuiet(s1, i);
      QuietTrans(s, s1, DoClose(s, t, k));
    } else {
      QuietSelf(s);
    }
  }

  lemma QuietSelf(s: State)
    ensures Quiet(s, s)
  {
    forall p ensures PipeKept(s, s, p) {}
    forall j ensures FileKept(s, s, j) {}
  }

  lemma TablesQuiet(s: State, s': State)
    requires s' == s.(tables := s'.tables, nextPid := s'.nextPid)
    ensures Quiet(s, s')
  {
    forall p ensures PipeKept(s, s', p) {}
    forall j ensures FileKept(s, s', j) {}
  }

  lemma {:induction false} ClosedQuiet(s: State, exact: bool, t: int, k: nat)
    requires Inv(s, exact) && t in s.tables && k <= MAX_FDS
    ensures Quiet(s, ClosedTo(s, t, k))
  {
    if k == 0 {
      QuietSelf(s);
    } else {
      var s1 := ClosedTo(s, t, k - 1);
      ClosedQuiet(s, exact, t, k - 1);
      ClosedKeeps(s, exact, t, k - 1);
      CloseQuiet(s1, exact, t, k - 1);
      QuietTrans(s, s1, ClosedTo(s, t, k));
    }
  }

  lemma ShareQuiet(s: State, exact: bool, t: int, fd: int, u: int, k: int)
    requires Inv(s, exact) && t in s.tables
    ensures Quiet(s, Share(s, t, fd, u, k))
  {
    QuietSelf(s);
    if u in s.tables && 0 <= k < |s.tables[u]| {
      if IsOpen(s, t, fd) {
        assert TableOK(s, t);
        AttachQuiet(s, exact, u, k, s.tables[t][fd]);
      } else {
        SlotQuiet(s, u, k, -1);
      }
    }
  }

  lemma {:induction false} InheritQuiet(s: State, exact: bool, t: int, u: int, k: nat)
    requires Inv(s, exact) && Inherited(s, t, u, 0) && k <= MAX_FDS
    ensures Quiet(s, InheritTo(s, t, u, k))
  {
    if k == 0 {
      QuietSelf(s);
    } else {
      var s1 := InheritTo(s, t, u, k - 1);
      InheritQuiet(s, exact, t, u, k - 1);
      InheritKeeps(s, exact, t, u, k - 1);
      ShareQuiet(s1, exact, t, k - 1, u, k - 1);
      QuietTrans(s, s1, InheritTo(s, t, u, k));
    }
  }

  lemma RedirectQuiet(s: State, exact: bool, t: int, fd: int, u: int, k: int)
    requires Inv(s, exact) && t in s.tables && u in s.tables && t != u && 0 <= fd < MAX_FDS && 0 <= k < MAX_FDS
    requires |s.tables[t]| == |s.tables[u]| == MAX_FDS && s.tables[t][k] == s.tables[u][k]
    ensures Quiet(s, Redirect(s, t, fd, u, k))
  {
    if IsOpen(s, u, k) {
      assert TableOK(s, t);
      TwoHolders(s, exact, t, u, k);
      DetachQuiet(s, exact, u, k);
      DetachKeeps(s, exact, u, k);
      ShareQuiet(Detach(s, u, k), exact, t, fd, u, k);
      QuietTrans(s, Detach(s, u, k), Redirect(s, t, fd, u, k));
    } else {
      ShareQuiet(s, exact, t, fd, u, k);
    }
  }

  lemma RedirectedQuiet(s: State, exact: bool, t: int, fdIn: int, fdOut: int, u: int)
    requires Inv(s, exact) && Inherited(s, t, u, MAX_FDS) && -1 <= fdIn < MAX_FDS && -1 <= fdOut < MAX_FDS
    ensures Quiet(s, Redirected(s, t, fdIn, fdOut, u))
  {
    var s1 := if fdIn == -1 then s else Redirect(s, t, fdIn, u, 0);
    QuietSelf(s);
    if fdIn != -1 {
      RedirectQuiet(s, exact, t, fdIn, u, 0);
      RedirectKeeps(s, exact, t, fdIn, u, 0);
    }
    if fdOut != -1 {
      var s2 := Redirect(s1, t, fdOut, u, 1);
      RedirectQuiet(s1, exact, t, fdOut, u, 1);
      RedirectKeeps(s1, exact, t, fdOut, u, 1);
      QuietTrans(s, s1, s2);
      RedirectQuiet(s2, exact, t, fdOut, u, 2);
      QuietTrans(s, s2, Redirect(s2, t, fdOut, u, 2));
    }
  }

  lemma SpawnQuiet(s: State, exact: bool, t: int, fdIn: int, fdOut: int, stackOk: bool)
    requires Inv(s, exact) && t in s.tables && -1 <= fdIn < MAX_FDS && -1 <= fdOut < MAX_FDS
    ensures Quiet(s, DoSpawn(s, t, fdIn, fdOut, stackOk))
  {
    var u := s.nextPid;
    var s1 := NewTask(s);
    var s2 := InheritTo(s1, t, u, MAX_FDS);
    var s3 := Redirected(s2, t, fdIn, fdOut, u);
    NewTaskKeeps(s, exact);
    assert TableOK(s, t);
    TablesQuiet(s, s1);
    InheritQuiet(s1, exact, t, u, MAX_FDS);
    InheritKeeps(s1, exact, t, u, MAX_FDS);
    QuietTrans(s, s1, s2);
    RedirectedQuiet(s2, exact, t, fdIn, fdOut, u);
    QuietTrans(s, s2, s3);
    TablesQuiet(s3, DoSpawn(s, t, fdIn, fdOut, stackOk));
    QuietTrans(s, s3, DoSpawn(s, t, fdIn, fdOut, stackOk));
  }

  lemma ExitQuiet(s: State, exact: bool, t: int)
    requires Inv(s, exact) && t in s.tables
    ensures Quiet(s, DoExit(s, t))
  {
    ClosedQuiet(s, exact, t, MAX_FDS);
    TablesQuiet(ClosedTo(s, t, MAX_FDS), DoExit(s, t));
    QuietTrans(s, ClosedTo(s, t, MAX_FDS), DoExit(s, t));
  }

  // ----- Every run -----

  /** Counts, byte order and the account of allocated and freed pipes. */
  ghost predicate Good(s: State, exact: bool) {
    && Inv(s, exact) && 0 <= s.nextPipe
    && (forall p {:trigger Flow(s, p)} :: p in s.pipes ==> Flow(s, p))
    && (forall p {:trigger Copies(s, p)} :: Copies(s, p) == if 0 <= p < s.nextPipe then 1 else 0)
  }

  lemma QuietGood(s: State, exact: bool, s': State, exact': bool)
    requires Good(s, exact) && Quiet(s, s') && Inv(s', exact')
    ensures Good(s', exact')
  {
    forall p | p in s'.pipes ensures Flow(s', p) {
      assert PipeKept(s, s', p) && Flow(s, p);
      assert Content(s'.pipes[p]) == Content(s.pipes[p]);
    }
    forall p ensures Copies(s', p) == if 0 <= p < s'.nextPipe then 1 else 0 {
      assert PipeKept(s, s', p) && Copies(s, p) >= 0;
    }
  }

  lemma OpenGood(s: State, exact: bool, t: int, found: bool, flags: int)
    requires Good(s, exact) && t in s.tables
    ensures Good(DoOpen(s, t, found, flags), exact)
  {
    var s' := DoOpen(s, t, found, flags);
    OpenKeeps(s, exact, t, found, flags);
    forall p | p in s'.pipes ensures Flow(s', p) { assert Flow(s, p); }
    forall p ensures Copies(s', p) == if 0 <= p < s'.nextPipe then 1 else 0 { assert Copies(s', p) == Copies(s, p); }
  }

  lemma PipeGood(s: State, exact: bool, t: int)
    requires Good(s, exact) && t in s.tables
    ensures Good(DoPipe(s, t), exact)
  {
    var s' := DoPipe(s, t);
    PipeKeeps(s, exact, t);
    forall p | p in s'.pipes ensures Flow(s', p) {
      if p in s.pipes { assert Flow(s, p) && PipeOK(s, p); }
    }
    assert s.nextPipe !in s.pipes by { assert Copies(s, s.nextPipe) == 0; }
    forall p ensures Copies(s', p) == if 0 <= p < s'.nextPipe then 1 else 0 { assert Copies(s, p) >= 0; }
  }

  lemma MoveGood(s: State, exact: bool, p: int, s': State)
    requires Good(s, exact) && p in s.pipes && p in s'.pipes && Inv(s', exact) && Flow(s', p)
    requires s' == s.(pipes := s.pipes[p := s'.pipes[p]], put := s'.put, taken := s'.taken)
    requires forall q :: q in s.put && q != p ==> q in s'.put && s'.put[q] == s.put[q]
    requires forall q :: q in s.taken && q != p ==> q in s'.taken && s'.taken[q] == s.taken[q]
    ensures Good(s', exact)
  {
    forall q | q in s'.pipes ensures Flow(s', q) { if q != p { assert Flow(s, q); } }
    forall q ensures Copies(s', q) == if 0 <= q < s'.nextPipe then 1 else 0 { assert Copies(s', q) == Copies(s, q); }
  }

  lemma ReadGood(s: State, exact: bool, t: int, fd: int)
    requires Good(s, exact) && Inv(DoRead(s, t, fd), exact)
    ensures Good(DoRead(s, t, fd), exact)
  {
    var p, s' := PipeOf(s, t, fd), DoRead(s, t, fd);
    if p != -1 {
      assert Flow(s, p);
      if CanTake(s.pipes[p]) {
        TakeRemoves(s.pipes[p]);
        assert s'.taken[p] + Content(s'.pipes[p]) ==
          s.taken[p] + ([s.pipes[p].buffer[s.pipes[p].head]] + Content(s'.pipes[p]));
      }
      MoveGood(s, exact, p, s');
    }
  }

  lemma WriteGood(s: State, exact: bool, t: int, fd: int, b: int)
    requires Good(s, exact) && Inv(DoWrite(s, t, fd, b), exact)
    ensures Good(DoWrite(s, t, fd, b), exact)
  {
    var p, s' := PipeOf(s, t, fd), DoWrite(s, t, fd, b);
    if p != -1 {
      assert Flow(s, p);
      if CanPut(s.pipes[p]) {
        PutAppends(s.pipes[p], b);
        assert s'.taken[p] + Content(s'.pipes[p]) == s.taken[p] + Content(s.pipes[p]) + [b];
      }
      MoveGood(s, exact, p, s');
    }
  }

  /** Every call keeps all of it; the counts stay exact unless a new task gets no stack. */
  lemma StepKeepsGood(s: State, exact: bool, e: Event)
    requires Good(s, exact) && Allowed(s, e)
    ensures Good(Do(s, e), exact && Exact(e))
  {
    StepKeepsCounts(s, exact, e);
    match e
    case Open(t, found, flags) => OpenGood(s, exact, t, found, flags);
    case MakePipe(t) => PipeGood(s, exact, t);
    case Read(t, fd) => ReadGood(s, exact, t, fd);
    case Write(t, fd, b) => WriteGood(s, exact, t, fd, b);
    case _ =>
      StepQuiet(s, exact, e);
      QuietGood(s, exact, Do(s, e), exact && Exact(e));
  }

  predicate IsRun(s: State, es: seq<Event>)
    decreases |es|
  {
    es == [] || (Allowed(s, es[0]) && IsRun(Do(s, es[0]), es[1..]))
  }

  function After(s: State, es: seq<Event>): State
    requires IsRun(s, es)
    decreases |es|
  {
    if es == [] then s else After(Do(s, es[0]), es[1..])
  }

  /** No new task of the run fails to get its stack. */
  predicate AllExact(es: seq<Event>) { forall e :: e in es ==> Exact(e) }

  lemma {:induction false} RunKeepsGood(s: State, exact: bool, es: seq<Event>)
    requires Good(s, exact) && IsRun(s, es)
    ensures Good(After(s, es), exact && AllExact(es))
    decreases |es|
  {
    if es != [] {
      StepKeepsGood(s, exact, es[0]);
      RunKeepsGood(Do(s, es[0]), exact && Exact(es[0]), es[1..]);
      assert AllExact(es) <==> Exact(es[0]) && AllExact(es[1..]) by { assert es == [es[0]] + es[1..]; }
    }
  }

  /** Before any call: one task, nothing open. */
  function Start(pid: int): State {
    State(seq(MAX_FILES, _ => KFile(false, 0, false, 0, -1)), map[pid := seq(MAX_FDS, _ => -1)], map[],
          pid + 1, 0, [], map[], map[])
  }

  lemma StartGood(pid: int)
    ensures Good(Start(pid), true)
  {
    var s := Start(pid);
    forall i | 0 <= i < |s.files| ensures FileOK(s, true, i) {}
    forall t | t in s.tables ensures TableOK(s, t) {}
    forall p ensures Copies(s, p) == 0 { assert multiset(s.freed)[p] == 0; }
  }

  /** With exact counts, nothing is held open once every table is empty. */
  lemma NothingLeaks(s: State)
    requires Inv(s, true)
    requires forall t, k :: t in s.tables && 0 <= k < |s.tables[t]| ==> s.tables[t][k] == -1
    ensures forall i :: 0 <= i < |s.files| ==> !s.files[i].inUse
    ensures forall p :: p !in s.pipes
  {
    forall p ensures p !in s.pipes {
      if p in s.pipes {
        var i := HasEnd(s, true, p);
        RefsNone(s.tables, i);
      }
    }
    forall i | 0 <= i < |s.files| ensures !s.files[i].inUse {
      assert FileOK(s, true, i);
      RefsNone(s.tables, i);
    }
  }

  lemma HasEnd(s: State, exact: bool, p: int) returns (i: int)
    requires Inv(s, exact) && p in s.pipes
    ensures 0 <= i < |s.files| && s.files[i].inUse && FileOK(s, exact, i)
  {
    assert PipeOK(s, p);
    if s.pipes[p].readers > 0 {
      i :| 0 <= i < |s.files| && IsEnd(s.files[i], p, true);
    } else {
      i :| 0 <= i < |s.files| && IsEnd(s.files[i], p, false);
    }
    assert FileOK(s, exact, i);
  }

  // ----- The end of the stream -----

  lemma StepQuiet(s: State, exact: bool, e: Event)
    requires Inv(s, exact) && Allowed(s, e) && (e.Close? || e.Spawn? || e.Exit?)
    ensures Quiet(s, Do(s, e))
  {
    match e
    case Close(t, fd) =>
      QuietSelf(s);
      if IsOpen(s, t, fd) { CloseQuiet(s, exact, t, fd); }
    case Spawn(t, fdIn, fdOut, stackOk) => SpawnQuiet(s, exact, t, fdIn, fdOut, stackOk);
    case Exit(t) => ExitQuiet(s, exact, t);
  }

  lemma NextPipeGrows(s: State, exact: bool, e: Event)
    requires Inv(s, exact) && Allowed(s, e)
    ensures s.nextPipe <= Do(s, e).nextPipe
  {
    if e.Close? || e.Spawn? || e.Exit? { StepQuiet(s, exact, e); }
  }

  /** Pipes do not come back, and a side of a pipe without holders stays so. */
  lemma StepNoRevival(s: State, exact: bool, e: Event, p: int)
    requires Good(s, exact) && Allowed(s, e) && p < s.nextPipe && p in Do(s, e).pipes
    ensures p in s.pipes && NoRevival(s.pipes[p], Do(s, e).pipes[p]) && p < Do(s, e).nextPipe
  {
    if e.Close? || e.Spawn? || e.Exit? {
      StepQuiet(s, exact, e);
      assert PipeKept(s, Do(s, e), p);
    }
  }

  /** Once a pipe has no writer, no run gives it one. */
  lemma {:induction false} NoWriterReappears(s: State, exact: bool, es: seq<Event>, p: int)
    requires Good(s, exact) && IsRun(s, es) && p < s.nextPipe && p in After(s, es).pipes
    ensures p in s.pipes && NoRevival(s.pipes[p], After(s, es).pipes[p])
    decreases |es|
  {
    if es != [] {
      StepKeepsGood(s, exact, es[0]);
      NextPipeGrows(s, exact, es[0]);
      NoWriterReappears(Do(s, es[0]), exact && Exact(es[0]), es[1..], p);
      StepNoRevival(s, exact, es[0], p);
    }
  }

  /** A read on `p` now would report the end of the stream. */
  predicate AtEnd(s: State, p: int) { p in s.pipes && s.pipes[p].count <= 0 && s.pipes[p].writers <= 0 }

  /** A write that goes into `p`. */
  predicate WritesTo(s: State, e: Event, p: int) {
    e.Write? && p != -1 && PipeOf(s, e.t, e.fd) == p && p in s.pipes && s.pipes[p].readers > 0
  }

  /**
   A pipe at its end stays there, step by step, exactly until something is written to it.
   */
  lemma EndStaysUnlessWritten(s: State, exact: bool, e: Event, p: int)
    requires Good(s, exact) && Allowed(s, e) && AtEnd(s, p) && p in Do(s, e).pipes
    ensures AtEnd(Do(s, e), p) <==> !WritesTo(s, e, p)
  {
    assert PipeOK(s, p) && Flow(s, p);
    assert Copies(s, p) >= 1;
    StepNoRevival(s, exact, e, p);
    if e.Close? || e.Spawn? || e.Exit? {
      StepQuiet(s, exact, e);
      assert PipeKept(s, Do(s, e), p);
    }
  }

  /** Such a write can only come through a descriptor opened for reading. */
  lemma OnlyReadersWrite(s: State, exact: bool, e: Event, p: int)
    requires Good(s, exact) && Allowed(s, e) && AtEnd(s, p) && WritesTo(s, e, p)
    ensures IsOpen(s, e.t, e.fd) && s.files[s.tables[e.t][e.fd]].mode == O_RDONLY
  {
    assert TableOK(s, e.t) && PipeOK(s, p);
    var i := s.tables[e.t][e.fd];
    assert FileOK(s, exact, i);
    assert IsEnd(s.files[i], p, s.files[i].mode == O_RDONLY);
  }

  /** Writes of the run go through descriptors opened for writing. */
  predicate ProperWrites(s: State, es: seq<Event>)
    requires IsRun(s, es)
    decreases |es|
  {
    es == [] ||
    (&& (es[0].Write? && IsOpen(s, es[0].t, es[0].fd) ==> s.files[s.tables[es[0].t][es[0].fd]].mode != O_RDONLY)
     && ProperWrites(Do(s, es[0]), es[1..]))
  }

  /** The end of the stream is final for as long as nobody writes through a reading end. */
  lemma {:induction false} EndIsFinal(s: State, exact: bool, es: seq<Event>, p: int)
    requires Good(s, exact) && IsRun(s, es) && ProperWrites(s, es) && AtEnd(s, p) && p in After(s, es).pipes
    ensures AtEnd(After(s, es), p)
    decreases |es|
  {
    if es != [] {
      var e := es[0];
      assert PipeOK(s, p);
      StepKeepsGood(s, exact, e);
      NextPipeGrows(s, exact, e);
      NoWriterReappears(Do(s, e), exact && Exact(e), es[1..], p);
      if WritesTo(s, e, p) { OnlyReadersWrite(s, exact, e, p); }
      EndStaysUnlessWritten(s, exact, e, p);
      EndIsFinal(Do(s, e), exact && Exact(e), es[1..], p);
    }
  }

  /** Bytes can follow the end of the stream: the holder of the reading end writes one. */
  lemma EndIsNotAlwaysFinal(pid: int, b: int)
    ensures var es := [MakePipe(pid), Close(pid, 4)];
      && IsRun(Start(pid), es) && AtEnd(After(Start(pid), es), 0)
      && var s := After(Start(pid), es);
         Allowed(s, Write(pid, 3, b)) && 0 in Do(s, Write(pid, 3, b)).pipes && !AtEnd(Do(s, Write(pid, 3, b)), 0)
  {
    var s := Start(pid);
    var e1, e2, e3 := MakePipe(pid), Close(pid, 4), Write(pid, 3, b);
    var s1 := Do(s, e1);
    assert s1 == EnterPipe(s, pid, 3, 4, 0, 1);
    var s2 := Do(s1, e2);
    assert IsRun(s1, [e2]) by { assert [e2][1..] == []; }
    assert [e1, e2][1..] == [e2];
    assert After(s1, [e2]) == s2 by { assert [e2][1..] == []; }
    assert After(s, [e1, e2]) == s2;
    assert PipeOf(s2, pid, 3) == 0;
  }

  // ----- A call that waits -----

  /** Task `x`, if it exists, has the same descriptors in both. */
  predicate SameTable(m: map<int, Table>, m': map<int, Table>, x: int) {
    x in m ==> x in m' && m'[x] == m[x]
  }

  lemma {:induction false} ClosedElsewhere(s: State, t: int, k: nat, x: int)
    requires x != t
    ensures SameTable(s.tables, ClosedTo(s, t, k).tables, x)
  {
    if k > 0 {
      ClosedElsewhere(s, t, k - 1, x);
      CloseElsewhere(ClosedTo(s, t, k - 1), t, k - 1, x);
    }
  }

  lemma CloseElsewhere(s: State, t: int, fd: int, x: int)
    requires x != t
    ensures SameTable(s.tables, DoClose(s, t, fd).tables, x)
  {}

  lemma {:induction false} InheritElsewhere(s: State, t: int, u: int, k: nat, x: int)
    requires x != u
    ensures SameTable(s.tables, InheritTo(s, t, u, k).tables, x)
  {
    if k > 0 {
      InheritElsewhere(s, t, u, k - 1, x);
      ShareElsewhere(InheritTo(s, t, u, k - 1), t, k - 1, u, k - 1, x);
    }
  }

  lemma ShareElsewhere(s: State, t: int, fd: int, u: int, k: int, x: int)
    requires x != u
    ensures SameTable(s.tables, Share(s, t, fd, u, k).tables, x)
  {}

  lemma RedirectElsewhere(s: State, t: int, fd: int, u: int, k: int, x: int)
    requires x != u
    ensures SameTable(s.tables, Redirect(s, t, fd, u, k).tables, x)
  {
    ShareElsewhere(if IsOpen(s, u, k) then Detach(s, u, k) else s, t, fd, u, k, x);
  }

  lemma RedirectedElsewhere(s: State, t: int, fdIn: int, fdOut: int, u: int, x: int)
    requires x != u
    ensures SameTable(s.tables, Redirected(s, t, fdIn, fdOut, u).tables, x)
  {
    var s1 := if fdIn == -1 then s else Redirect(s, t, fdIn, u, 0);
    if fdIn != -1 { RedirectElsewhere(s, t, fdIn, u, 0, x); }
    if fdOut != -1 {
      RedirectElsewhere(s1, t, fdOut, u, 1, x);
      RedirectElsewhere(Redirect(s1, t, fdOut, u, 1), t, fdOut, u, 2, x);
    }
  }

  /** `n` stands for the number of descriptors. */
  lemma SpawnElsewhere(s: State, t: int, fdIn: int, fdOut: int, n: nat, x: int)
    requires x != s.nextPid
    ensures SameTable(s.tables, Redirected(InheritTo(NewTask(s), t, s.nextPid, n), t, fdIn, fdOut, s.nextPid).tables, x)
  {
    InheritElsewhere(NewTask(s), t, s.nextPid, n, x);
    RedirectedElsewhere(InheritTo(NewTask(s), t, s.nextPid, n), t, fdIn, fdOut, s.nextPid, x);
  }

  /** A call changes no other task's descriptors. */
  lemma OwnTableOnly(s: State, exact: bool, e: Event, t: int)
    requires Inv(s, exact) && Allowed(s, e) && t in s.tables && e.t != t
    ensures t in Do(s, e).tables && Do(s, e).tables[t] == s.tables[t]
  {
    assert t < s.nextPid by { assert TableOK(s, t); }
    match e
    case Exit(u) => ClosedElsewhere(s, u, MAX_FDS, t);
    case Spawn(u, fdIn, fdOut, stackOk) => SpawnElsewhere(s, u, fdIn, fdOut, MAX_FDS, t);
    case _ => OwnTable(s, e, t);
  }

  lemma OwnTable(s: State, e: Event, t: int)
    requires Allowed(s, e) && t in s.tables && e.t != t && !e.Exit? && !e.Spawn?
    ensures t in Do(s, e).tables && Do(s, e).tables[t] == s.tables[t]
  {}

  /** While a task waits in a read or a write, its descriptor goes on naming the same allocated pipe. */
  lemma WaitingPipeStays(s: State, exact: bool, e: Event, t: int, fd: int)
    requires Good(s, exact) && Allowed(s, e) && e.t != t && PipeOf(s, t, fd) != -1
    ensures PipeOf(Do(s, e), t, fd) == PipeOf(s, t, fd)
  {
    var s' := Do(s, e);
    OwnTableOnly(s, exact, e, t);
    StepKeepsCounts(s, exact, e);
    var i := s.tables[t][fd];
    assert TableOK(s, t) && TableOK(s', t) && FileOK(s', exact && Exact(e), i);
    if e.Close? || e.Spawn? || e.Exit? {
      StepQuiet(s, exact, e);
      assert FileKept(s, s', i);
    }
  }

  /** The records of a pipe only grow, and only reads and writes make them grow. */
  lemma StepRecords(s: State, exact: bool, e: Event, p: int)
    requires Good(s, exact) && Allowed(s, e) && p in s.pipes
    ensures p in s.taken && p in s.put && p in Do(s, e).taken && p in Do(s, e).put
    ensures s.taken[p] <= Do(s, e).taken[p] && (!e.Read? ==> Do(s, e).taken[p] == s.taken[p])
    ensures s.put[p] <= Do(s, e).put[p] && (!e.Write? ==> Do(s, e).put[p] == s.put[p])
  {
    assert Flow(s, p) && PipeOK(s, p);
    if e.Close? || e.Spawn? || e.Exit? { StepQuiet(s, exact, e); }
  }
}
