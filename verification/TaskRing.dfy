/**
 The circular task list of kernel/task/task.c: scheduling, exit, creation and
 the removal of dead tasks, and how long a task can be passed over.
 */
module TaskRing {
  datatype Status = Running | Ready | Sleeping | Dead

  /**
   `order` is the ring, beginning after the current task and ending with it;
   `rq` is the task ready_queue points at.
   */
  datatype Tasks = Tasks(order: seq<int>, rq: int, status: map<int, Status>, wake: map<int, int>, need: bool,
                         nextPid: int)

  predicate Differ(s: seq<int>, i: int, j: int)
    requires 0 <= i < |s| && 0 <= j < |s|
  {
    s[i] != s[j]
  }

  /** No task occurs twice. */
  ghost predicate Distinct(s: seq<int>) {
    forall i, j {:trigger Differ(s, i, j)} :: 0 <= i < j < |s| ==> Differ(s, i, j)
  }

  lemma Apart(s: seq<int>, i: int, j: int)
    requires Distinct(s) && 0 <= i < |s| && 0 <= j < |s| && i != j
    ensures s[i] != s[j]
  {
    assert Differ(s, i, j) || Differ(s, j, i);
  }

  function Current(s: Tasks): int
    requires s.order != []
  {
    s.order[|s.order| - 1]
  }

  predicate IsCurrent(s: Tasks, t: int) { s.order != [] && Current(s) == t }

  predicate Alive(status: map<int, Status>, t: int) { t in status && status[t] != Dead }

  predicate TaskOK(s: Tasks, t: int) {
    t in s.status && t in s.wake && t < s.nextPid && (s.need || Alive(s.status, t))
  }

  ghost predicate Inv(s: Tasks) {
    && s.order != [] && Distinct(s.order) && s.rq in s.order && Alive(s.status, Current(s))
    && (forall t {:trigger TaskOK(s, t)} :: t in s.order ==> TaskOK(s, t))
  }

  // ----- Sequences -----

  function Live(s: seq<int>, status: map<int, Status>): seq<int> {
    if s == [] then [] else (if Alive(status, s[0]) then [s[0]] else []) + Live(s[1..], status)
  }

  /** The first position from `i` on that holds `t`, or the length. */
  function IndexFrom(s: seq<int>, t: int, i: nat): (r: nat)
    requires i <= |s|
    ensures i <= r <= |s| && (r < |s| ==> s[r] == t)
    decreases |s| - i
  {
    if i == |s| || s[i] == t then i else IndexFrom(s, t, i + 1)
  }

  lemma {:induction false} IndexMin(s: seq<int>, t: int, i: nat, j: nat)
    requires i <= j < |s| && s[j] == t
    ensures IndexFrom(s, t, i) <= j
    decreases j - i
  {
    if s[i] != t { IndexMin(s, t, i + 1, j); }
  }

  function IndexOf(s: seq<int>, t: int): (i: nat)
    ensures i <= |s| && (i < |s| ==> s[i] == t) && (i < |s| <==> t in s)
  {
    IndexFound(s, t);
    IndexFrom(s, t, 0)
  }

  lemma IndexFound(s: seq<int>, t: int)
    ensures t in s ==> IndexFrom(s, t, 0) < |s|
  {
    if t in s {
      var j :| 0 <= j < |s| && s[j] == t;
      IndexMin(s, t, 0, j);
    }
  }

  /** The same ring, beginning at position `k`. */
  function Turn(s: seq<int>, k: nat): (r: seq<int>)
    requires k <= |s|
  {
    s[k..] + s[..k]
  }

  lemma {:induction false} LiveAppend(a: seq<int>, b: seq<int>, status: map<int, Status>)
    ensures Live(a + b, status) == Live(a, status) + Live(b, status)
  {
    if a == [] {
      assert a + b == b;
    } else {
      assert (a + b)[1..] == a[1..] + b;
      LiveAppend(a[1..], b, status);
    }
  }

  /** Exactly the live tasks stay, in order. */
  lemma {:induction false} LiveMembers(s: seq<int>, status: map<int, Status>)
    ensures forall t :: t in Live(s, status) <==> t in s && Alive(status, t)
    ensures |Live(s, status)| <= |s|
    ensures Distinct(s) ==> Distinct(Live(s, status))
  {
    if s != [] {
      LiveMembers(s[1..], status);
      assert s == [s[0]] + s[1..];
      if Distinct(s) { DistinctTail(s, Live(s[1..], status)); }
      if !Alive(status, s[0]) { assert Live(s, status) == Live(s[1..], status); }
    }
  }

  lemma DistinctTail(s: seq<int>, l: seq<int>)
    requires Distinct(s) && s != [] && (Distinct(s[1..]) ==> Distinct(l)) && forall t :: t in l ==> t in s[1..]
    ensures Distinct(l) && Distinct([s[0]] + l)
  {
    var tail := s[1..];
    forall i, j | 0 <= i < j < |tail| ensures Differ(tail, i, j) { assert Differ(s, i + 1, j + 1); }
    forall k | 0 <= k < |tail| ensures tail[k] != s[0] { assert Differ(s, 0, k + 1); }
    var r := [s[0]] + l;
    forall i, j | 0 <= i < j < |r| ensures Differ(r, i, j) {
      assert l[j - 1] in l;
      if i > 0 { assert Differ(l, i - 1, j - 1); }
    }
  }

  lemma {:induction false} LiveAll(s: seq<int>, status: map<int, Status>)
    requires forall t :: t in s ==> Alive(status, t)
    ensures Live(s, status) == s
  {
    if s != [] {
      assert s[0] in s;
      LiveAll(s[1..], status);
    }
  }

  lemma LiveIndex(s: seq<int>, status: map<int, Status>, t: int)
    requires t in s && Alive(status, t)
    ensures t in Live(s, status) && IndexOf(Live(s, status), t) <= IndexOf(s, t)
  {
    var q := IndexOf(s, t);
    var a, b := s[..q], s[q..];
    assert s == a + b;
    LiveAppend(a, b, status);
    LiveMembers(a, status);
    var j := |Live(a, status)|;
    assert Live(s, status)[j] == t;
    IndexMin(Live(s, status), t, 0, j);
  }

  lemma TurnMembers(s: seq<int>, k: nat)
    requires k <= |s|
    ensures forall t :: t in Turn(s, k) <==> t in s
    ensures |Turn(s, k)| == |s|
    ensures Distinct(s) ==> Distinct(Turn(s, k))
  {
    assert s == s[..k] + s[k..];
    var r, n := Turn(s, k), |s|;
    if Distinct(s) {
      forall i, j | 0 <= i < j < n ensures Differ(r, i, j) {
        Apart(s, if i < n - k then i + k else i + k - n, if j < n - k then j + k else j + k - n);
      }
    }
  }

  // ----- Events -----

  /** Dead tasks leave the ring; ready_queue moves on to the next live task. */
  function Cleanup(s: Tasks): Tasks {
    var live := Live(Turn(s.order, IndexOf(s.order, s.rq)), s.status);
    s.(order := Live(s.order, s.status), rq := if live == [] then s.rq else live[0], need := false)
  }

  predicate Runnable(s: Tasks, t: int, tick: int) {
    t in s.status &&
    (s.status[t] == Running || s.status[t] == Ready || (s.status[t] == Sleeping && t in s.wake && tick >= s.wake[t]))
  }

  /** Position, from `i` on and before `n`, of the first task the scheduler takes; `n` if there is none. */
  function FirstRunnable(s: Tasks, n: nat, tick: int, i: nat): (r: nat)
    requires i <= n <= |s.order|
    ensures i <= r <= n && (r < n ==> Runnable(s, s.order[r], tick))
    decreases n - i
  {
    if i == n || Runnable(s, s.order[i], tick) then i else FirstRunnable(s, n, tick, i + 1)
  }

  function WakeUp(s: Tasks, t: int, to: Status): Tasks
    requires t in s.status
  {
    if s.status[t] == Sleeping then s.(status := s.status[t := to]) else s
  }

  /** The task at position `p` becomes the current one. */
  function SwitchTo(s: Tasks, p: nat): Tasks
    requires p < |s.order|
  {
    s.(order := Turn(s.order, p + 1))
  }

  /** task_scheduler after its cleanup. */
  function Pick(s: Tasks, tick: int): Tasks
    requires s.order != []
  {
    var n := |s.order|;
    if n == 1 then (if Runnable(s, s.order[0], tick) then WakeUp(s, s.order[0], Running) else s)
    else
      var p := FirstRunnable(s, n - 1, tick, 0);
      if p < n - 1 then SwitchTo(WakeUp(s, s.order[p], Running), p) else s
  }

  function FirstAlive(status: map<int, Status>, l: seq<int>, n: nat, i: nat): (r: nat)
    requires i <= n <= |l|
    ensures i <= r <= n && (r < n ==> Alive(status, l[r]))
    decreases n - i
  {
    if i == n || Alive(status, l[i]) then i else FirstAlive(status, l, n, i + 1)
  }

  /** exit_process: the current task dies and the next one that is not dead goes on, even one that sleeps. */
  function Exit(s: Tasks): Tasks
    requires s.order != []
  {
    var n := |s.order|;
    var s1 := s.(status := s.status[Current(s) := Dead], need := true);
    var p := FirstAlive(s1.status, s.order, n - 1, 0);
    if p < n - 1 then SwitchTo(WakeUp(s1, s.order[p], Ready), p) else s1
  }

  /** create_process: the new task comes right after ready_queue. */
  function Create(s: Tasks): Tasks {
    var i := IndexOf(s.order, s.rq);
    var order :=
      if i + 1 >= |s.order| then [s.nextPid] + s.order else s.order[..i + 1] + [s.nextPid] + s.order[i + 1..];
    s.(order := order, status := s.status[s.nextPid := Ready], wake := s.wake[s.nextPid := 0], nextPid := s.nextPid + 1)
  }

  datatype Event =
    | Schedule(tick: int)
    | ExitNow
    | CreateOne
    | Sleep(tick: int)

  /** The current task may only exit while another one lives. */
  predicate Allowed(s: Tasks, e: Event) {
    s.order != [] && (e.ExitNow? ==> exists t :: t in s.order && t != Current(s) && Alive(s.status, t))
  }

  function Do(s: Tasks, e: Event): Tasks
    requires Allowed(s, e)
  {
    match e
    case Schedule(tick) => var s1 := Cleanup(s); if s1.order == [] then s1 else Pick(s1, tick)
    case ExitNow => Exit(s)
    case CreateOne => Create(Cleanup(s))
    case Sleep(tick) => s.(status := s.status[Current(s) := Sleeping], wake := s.wake[Current(s) := tick])
  }

  // ----- Safety -----

  lemma LastStays(s: Tasks)
    requires Inv(s)
    ensures var l := Live(s.order, s.status); l != [] && l[|l| - 1] == Current(s)
  {
    var n := |s.order|;
    assert s.order == s.order[..n - 1] + [Current(s)];
    LiveAppend(s.order[..n - 1], [Current(s)], s.status);
    assert Live([Current(s)], s.status) == [Current(s)];
  }

  lemma CleanupKeeps(s: Tasks)
    requires Inv(s)
    ensures Inv(Cleanup(s)) && Current(Cleanup(s)) == Current(s)
    ensures forall t :: t in Cleanup(s).order <==> t in s.order && Alive(s.status, t)
    ensures forall t :: t in Cleanup(s).order ==> Alive(s.status, t)
  {
    LastStays(s);
    LiveMembers(s.order, s.status);
    var ring := Turn(s.order, IndexOf(s.order, s.rq));
    TurnMembers(s.order, IndexOf(s.order, s.rq));
    LiveMembers(ring, s.status);
    assert Current(s) in s.order && Current(s) in ring;
    assert Current(s) in Live(ring, s.status);
    forall t | t in Cleanup(s).order ensures TaskOK(Cleanup(s), t) { assert TaskOK(s, t); }
  }

  lemma SwitchKeeps(s: Tasks, p: nat)
    requires s.order != [] && Distinct(s.order) && s.rq in s.order && p < |s.order| && Alive(s.status, s.order[p])
    requires forall t {:trigger TaskOK(s, t)} :: t in s.order ==> TaskOK(s, t)
    ensures Inv(SwitchTo(s, p)) && Current(SwitchTo(s, p)) == s.order[p]
  {
    TurnMembers(s.order, p + 1);
    forall t | t in SwitchTo(s, p).order ensures TaskOK(SwitchTo(s, p), t) { assert TaskOK(s, t); }
  }

  lemma WakeKeeps(s: Tasks, u: int, to: Status)
    requires u in s.status && to != Dead && forall t {:trigger TaskOK(s, t)} :: t in s.order ==> TaskOK(s, t)
    ensures var s' := WakeUp(s, u, to);
      forall t {:trigger TaskOK(s', t)} :: t in s.order ==>
        TaskOK(s', t) && (Alive(s.status, t) ==> Alive(s'.status, t))
  {
    forall t | t in s.order
      ensures TaskOK(WakeUp(s, u, to), t) && (Alive(s.status, t) ==> Alive(WakeUp(s, u, to).status, t))
    {
      assert TaskOK(s, t);
    }
  }

  lemma PickKeeps(s: Tasks, tick: int)
    requires Inv(s)
    ensures Inv(Pick(s, tick))
  {
    var n := |s.order|;
    if n > 1 {
      var p := FirstRunnable(s, n - 1, tick, 0);
      if p < n - 1 {
        WakeKeeps(s, s.order[p], Running);
        SwitchKeeps(WakeUp(s, s.order[p], Running), p);
      }
    } else if Runnable(s, s.order[0], tick) {
      WakeKeeps(s, s.order[0], Running);
    }
  }

  /** The task that goes on after the current one has ended. */
  lemma NextAfterExit(s: Tasks) returns (p: nat)
    requires s.order != [] && Allowed(s, ExitNow)
    ensures p == FirstAlive(s.status[Current(s) := Dead], s.order, |s.order| - 1, 0) && p < |s.order| - 1
  {
    var n := |s.order|;
    var status := s.status[Current(s) := Dead];
    var t :| t in s.order && t != Current(s) && Alive(s.status, t);
    p := FirstAlive(status, s.order, n - 1, 0);
    AliveBefore(status, s.order, n - 1, 0, IndexOf(s.order, t));
    if p >= n - 1 { NoneBefore(s.order, t); }
  }

  lemma ExitKeeps(s: Tasks)
    requires Inv(s) && Allowed(s, ExitNow)
    ensures Inv(Exit(s)) && Current(Exit(s)) != Current(s)
  {
    var s1 := s.(status := s.status[Current(s) := Dead], need := true);
    var p := NextAfterExit(s);
    forall u | u in s1.order ensures TaskOK(s1, u) { assert TaskOK(s, u); }
    WakeKeeps(s1, s.order[p], Ready);
    SwitchKeeps(WakeUp(s1, s.order[p], Ready), p);
  }

  /** The new task comes somewhere before the current one. */
  lemma CreateSplits(s: Tasks) returns (a: seq<int>, b: seq<int>)
    requires s.rq in s.order
    ensures s.order == a + b && b != [] && Create(s).order == a + [s.nextPid] + b
    ensures s.rq == if a != [] then a[|a| - 1] else b[|b| - 1]
  {
    a, b := SplitAfter(s.order, IndexOf(s.order, s.rq), s.nextPid);
  }

  lemma SplitAfter(l: seq<int>, i: nat, x: int) returns (a: seq<int>, b: seq<int>)
    requires i < |l|
    ensures l == a + b && b != [] && l[i] == if a != [] then a[|a| - 1] else b[|b| - 1]
    ensures (if i + 1 >= |l| then [x] + l else l[..i + 1] + [x] + l[i + 1..]) == a + [x] + b
  {
    if i + 1 >= |l| { a, b := [], l; } else { a, b := l[..i + 1], l[i + 1..]; }
  }

  lemma FreshPid(s: Tasks)
    requires Inv(s)
    ensures s.nextPid !in s.order
  {
    forall t | t in s.order ensures t != s.nextPid { assert TaskOK(s, t); }
  }

  lemma CreateKeeps(s: Tasks)
    requires Inv(s)
    ensures Inv(Create(s)) && Current(Create(s)) == Current(s)
    ensures forall t :: t in Create(s).order <==> t in s.order || t == s.nextPid
  {
    var a, b := CreateSplits(s);
    assert TaskOK(s, Current(s));
    FreshPid(s);
    InsertMembers(a, s.nextPid, b);
    InsertDistinct(a, s.nextPid, b);
    forall t | t in Create(s).order ensures TaskOK(Create(s), t) { if t != s.nextPid { assert TaskOK(s, t); } }
  }

  lemma InsertMembers(a: seq<int>, x: int, b: seq<int>)
    ensures forall t :: t in a + [x] + b <==> t in a + b || t == x
  {}

  lemma InsertDistinct(a: seq<int>, x: int, b: seq<int>)
    requires Distinct(a + b) && x !in a + b
    ensures Distinct(a + [x] + b)
  {
    var s, r := a + b, a + [x] + b;
    forall i, j | 0 <= i < j < |r| ensures Differ(r, i, j) {
      if i != |a| { assert r[i] == s[if i < |a| then i else i - 1]; }
      if j != |a| { assert r[j] == s[if j < |a| then j else j - 1]; }
      if i != |a| && j != |a| { Apart(s, if i < |a| then i else i - 1, if j < |a| then j else j - 1); }
    }
  }

  /** Every step keeps the ring: distinct tasks, a live current task, ready_queue on the ring. */
  lemma StepKeeps(s: Tasks, e: Event)
    requires Inv(s) && Allowed(s, e)
    ensures Inv(Do(s, e))
  {
    match e
    case Schedule(tick) => CleanupKeeps(s); PickKeeps(Cleanup(s), tick);
    case ExitNow => ExitKeeps(s);
    case CreateOne => CleanupKeeps(s); CreateKeeps(Cleanup(s));
    case Sleep(tick) => forall t | t in s.order ensures TaskOK(Do(s, e), t) { assert TaskOK(s, t); }
  }

  // ----- What each step does to the tasks -----

  /** A task that may be given the processor at `tick`: ready, running, or asleep with its time come. */
  predicate Due(s: Tasks, t: int, tick: int) {
    && t in s.order && t in s.status && t in s.wake
    && (s.status[t] == Ready || s.status[t] == Running || (s.status[t] == Sleeping && s.wake[t] <= tick))
  }

  /** The sleeper that a scheduling wakes: one it switches to, or the only task there is. */
  predicate Woken(s: Tasks, s': Tasks, t: int, tick: int) {
    IsCurrent(s', t) && Due(s, t, tick) && s.status[t] == Sleeping && (!IsCurrent(s, t) || |s'.order| == 1)
  }

  predicate StatusAfter(s: Tasks, s': Tasks, t: int, tick: int) {
    && (t in s'.status <==> t in s.status)
    && (t in s.status ==> s'.status[t] == if Woken(s, s', t, tick) then Running else s.status[t])
  }

  /**
   A switch goes to the next due task on the ring, and stays where it is only if no other task is due.
   A sleeper it switches to runs; all other tasks, and all waking times, are as before.
   */
  lemma ScheduleMeans(s: Tasks, tick: int)
    requires Inv(s)
    ensures var s' := Do(s, Schedule(tick));
      && s'.order != [] && s'.wake == s.wake && s'.nextPid == s.nextPid && !s'.need
      && (!IsCurrent(s, Current(s')) ==> Due(s, Current(s'), tick))
      && (forall t :: StatusAfter(s, s', t, tick))
      && forall t :: Due(s, t, tick) && !IsCurrent(s', t) ==> Ahead(s, Current(s'), t)
  {
    var s1, s' := Cleanup(s), Do(s, Schedule(tick));
    CleanupKeeps(s);
    PickKeeps(s1, tick);
    PickMeans(s1, tick);
    forall t ensures StatusAfter(s, s', t, tick) { assert StatusAfter(s1, s', t, tick); DueLater(s, t, tick); }
    forall t | Due(s, t, tick) && !IsCurrent(s', t) ensures Ahead(s, Current(s'), t) {
      DueLater(s, t, tick);
      LiveOrder(s.order, s.status, Current(s'), t);
    }
  }

  /** Task `x` is not the current one and comes before `t` on the ring. */
  predicate Ahead(s: Tasks, x: int, t: int) { !IsCurrent(s, x) && IndexOf(s.order, x) < IndexOf(s.order, t) }

  /** A cleanup makes no task due, and none of the others. */
  lemma DueLater(s: Tasks, t: int, tick: int)
    requires Inv(s)
    ensures Due(Cleanup(s), t, tick) <==> Due(s, t, tick)
  {
    CleanupKeeps(s);
  }

  lemma PickMeans(s: Tasks, tick: int)
    requires Inv(s)
    ensures var s' := Pick(s, tick);
      && s'.order != [] && s' == s.(order := s'.order, status := s'.status) && Current(s') in s.order
      && (!IsCurrent(s, Current(s')) ==> Due(s, Current(s'), tick))
      && (forall t :: StatusAfter(s, s', t, tick))
      && forall t :: Due(s, t, tick) && !IsCurrent(s', t) ==> Ahead(s, Current(s'), t)
  {
    var n := |s.order|;
    assert Current(s) in s.order && TaskOK(s, Current(s));
    var p := FirstRunnable(s, n - 1, tick, 0);
    forall t | Due(s, t, tick) ensures p <= IndexOf(s.order, t) {
      FirstBefore(s, n - 1, tick, 0, IndexOf(s.order, t));
    }
    if p < n - 1 {
      PickOther(s, tick, p);
    } else {
      NobodyElse(s, tick, p);
    }
  }

  lemma PickOther(s: Tasks, tick: int, p: nat)
    requires Inv(s) && p < |s.order| - 1 && Runnable(s, s.order[p], tick)
    requires p == FirstRunnable(s, |s.order| - 1, tick, 0)
    requires forall t :: Due(s, t, tick) ==> p <= IndexOf(s.order, t)
    ensures var s' := Pick(s, tick);
      && s'.order != [] && s' == s.(order := s'.order, status := s'.status) && Current(s') == s.order[p]
      && !IsCurrent(s, s.order[p]) && Due(s, s.order[p], tick)
      && (forall t :: StatusAfter(s, s', t, tick))
      && forall t :: Due(s, t, tick) && !IsCurrent(s', t) ==> Ahead(s, Current(s'), t)
  {
    var n, x, s' := |s.order|, s.order[p], Pick(s, tick);
    assert TaskOK(s, x);
    IndexUnique(s.order, p);
    Apart(s.order, p, n - 1);
    assert s'.order[n - 1] == x;
    assert s' == s.(order := s'.order, status := if s.status[x] == Sleeping then s.status[x := Running] else s.status);
    forall t ensures StatusAfter(s, s', t, tick) {}
    forall t | Due(s, t, tick) && !IsCurrent(s', t) ensures Ahead(s, x, t) {
      assert s.order[IndexOf(s.order, t)] == t;
    }
  }

  /** Nobody before the current task is due. */
  lemma NobodyElse(s: Tasks, tick: int, p: nat)
    requires Inv(s) && p >= |s.order| - 1 && forall t :: Due(s, t, tick) ==> p <= IndexOf(s.order, t)
    ensures forall t :: Due(s, t, tick) ==> t == Current(s)
  {
    forall t | Due(s, t, tick) ensures t == Current(s) { NoneBefore(s.order, t); }
  }

  /** The live tasks keep their order on the ring. */
  lemma LiveOrder(order: seq<int>, status: map<int, Status>, x: int, t: int)
    requires Distinct(order) && x in Live(order, status) && t in Live(order, status)
    requires IndexOf(Live(order, status), x) < IndexOf(Live(order, status), t)
    ensures x in order && t in order && IndexOf(order, x) < IndexOf(order, t)
  {
    LiveMembers(order, status);
    var q := IndexOf(order, t);
    var a, b := order[..q], order[q..];
    assert order == a + b;
    LiveAppend(a, b, status);
    LiveMembers(a, status);
    LiveMembers(b, status);
    var i, j := IndexOf(order, x), |Live(a, status)|;
    assert b[0] == t && Live(order, status)[j] == t;
    IndexUnique(Live(order, status), j);
    assert Live(order, status)[IndexOf(Live(order, status), x)] == x;
    assert x in Live(a, status);
    assert x in a;
    var k :| 0 <= k < |a| && a[k] == x;
    IndexMin(order, x, 0, k);
  }

  /** The current task dies; the next live one on the ring goes on, and is ready if it slept. */
  lemma ExitMeans(s: Tasks)
    requires Inv(s) && Allowed(s, ExitNow)
    ensures var s' := Do(s, ExitNow);
      && s'.order != [] && s' == s.(order := s'.order, status := s'.status, need := true)
      && var c, c' := Current(s), Current(s');
         && c' in s.order && c' != c && Alive(s.status, c')
         && s'.status == s.status[c := Dead][c' := if s.status[c'] == Sleeping then Ready else s.status[c']]
         && forall t :: t in s.order && t != c && t != c' && Alive(s.status, t) ==>
              IndexOf(s.order, c') < IndexOf(s.order, t)
  {
    var n, c := |s.order|, Current(s);
    var p := NextAfterExit(s);
    IndexUnique(s.order, p);
    Apart(s.order, p, n - 1);
    assert TaskOK(s, s.order[p]);
    ExitStatus(s, p);
    forall t | t in s.order && t != c && t != s.order[p] && Alive(s.status, t) ensures p < IndexOf(s.order, t) {
      AliveBefore(s.status[c := Dead], s.order, n - 1, 0, IndexOf(s.order, t));
    }
  }

  lemma ExitStatus(s: Tasks, p: nat)
    requires s.order != [] && p < |s.order| - 1
    requires p == FirstAlive(s.status[Current(s) := Dead], s.order, |s.order| - 1, 0)
    requires s.order[p] != Current(s) && s.order[p] in s.status
    ensures var s', c, c' := Exit(s), Current(s), s.order[p];
      && s'.order != [] && Current(s') == c' && s' == s.(order := s'.order, status := s'.status, need := true)
      && s'.status == s.status[c := Dead][c' := if s.status[c'] == Sleeping then Ready else s.status[c']]
  {
    var n := |s.order|;
    assert Exit(s).order[n - 1] == s.order[p];
  }

  /** A new task is ready, not asleep, and the first behind ready_queue; nothing else changes but who is dead. */
  lemma CreateMeans(s: Tasks)
    requires Inv(s)
    ensures var s1, s' := Cleanup(s), Do(s, CreateOne);
      && s'.order != [] && Current(s') == Current(s) && s'.nextPid == s.nextPid + 1 && s.nextPid !in s.order
      && s'.status == s.status[s.nextPid := Ready] && s'.wake == s.wake[s.nextPid := 0] && s'.rq == s1.rq
      && exists a, b :: s1.order == a + b && b != [] && s'.order == a + [s.nextPid] + b
           && s1.rq == if a != [] then a[|a| - 1] else b[|b| - 1]
  {
    CleanupKeeps(s);
    CreateKeeps(Cleanup(s));
    FreshPid(s);
    var a, b := CreateSplits(Cleanup(s));
  }

  /** Dead tasks leave; ready_queue goes on to the first live task from where it was. */
  lemma CleanupMeans(s: Tasks)
    requires Inv(s)
    ensures var s' := Cleanup(s);
      && s' == s.(order := s'.order, rq := s'.rq, need := false)
      && (Alive(s.status, s.rq) ==> s'.rq == s.rq)
      && exists k :: 0 <= k < |s.order| && Turn(s.order, IndexOf(s.order, s.rq))[k] == s'.rq && Alive(s.status, s'.rq)
           && forall j :: 0 <= j < k ==> !Alive(s.status, Turn(s.order, IndexOf(s.order, s.rq))[j])
  {
    var ring := Turn(s.order, IndexOf(s.order, s.rq));
    TurnMembers(s.order, IndexOf(s.order, s.rq));
    LiveMembers(ring, s.status);
    assert Current(s) in ring && Current(s) in Live(ring, s.status);
    var k := FirstLive(ring, s.status);
    assert ring[0] == s.rq;
  }

  lemma {:induction false} FirstLive(l: seq<int>, status: map<int, Status>) returns (k: nat)
    requires Live(l, status) != []
    ensures k < |l| && Alive(status, l[k]) && l[k] == Live(l, status)[0]
    ensures forall j :: 0 <= j < k ==> !Alive(status, l[j])
    decreases |l|
  {
    if Alive(status, l[0]) {
      k := 0;
    } else {
      assert Live(l, status) == Live(l[1..], status);
      k := FirstLive(l[1..], status);
      forall j | 0 <= j < k + 1 ensures !Alive(status, l[j]) { if j > 0 { assert l[j] == l[1..][j - 1]; } }
      k := k + 1;
    }
  }

  /** The current task sleeps until `tick`; nothing else changes. */
  lemma SleepMeans(s: Tasks, tick: int)
    requires s.order != []
    ensures var s', c := Do(s, Sleep(tick)), Current(s);
      && s' == s.(status := s'.status, wake := s'.wake)
      && c in s'.status && s'.status[c] == Sleeping && c in s'.wake && s'.wake[c] == tick
      && (forall t :: t != c ==> (t in s'.status <==> t in s.status) && (t in s'.wake <==> t in s.wake))
      && (forall t :: t != c && t in s.status ==> s'.status[t] == s.status[t])
      && forall t :: t != c && t in s.wake ==> s'.wake[t] == s.wake[t]
  {}

  // ----- Bounded waiting -----

  /** How many switches to the next task lead from the current task to `t`. */
  function Distance(s: Tasks, t: int): nat { IndexOf(s.order, t) + 1 }

  predicate IsSwitch(e: Event) { e.Schedule? || e.ExitNow? }

  lemma IndexUnique(s: seq<int>, i: nat)
    requires Distinct(s) && i < |s|
    ensures IndexOf(s, s[i]) == i
  {
    var j := IndexOf(s, s[i]);
    assert s[i] in s;
    if i != j { Apart(s, i, j); }
  }

  /** Switching to a task on the way to `t` shortens the way. */
  lemma SwitchShortens(s: Tasks, p: nat, t: int)
    requires Distinct(s.order) && t in s.order && p < IndexOf(s.order, t)
    ensures t in SwitchTo(s, p).order && Distance(SwitchTo(s, p), t) == Distance(s, t) - p - 1
  {
    TurnMembers(s.order, p + 1);
    var q := IndexOf(s.order, t);
    IndexUnique(Turn(s.order, p + 1), q - p - 1);
  }

  lemma CleanupShortens(s: Tasks, t: int)
    requires Inv(s) && t in s.order && Alive(s.status, t)
    ensures t in Cleanup(s).order && Distance(Cleanup(s), t) <= Distance(s, t)
  {
    LiveIndex(s.order, s.status, t);
  }

  /** Switching to `t` or to a task on the way to it. */
  lemma SwitchToward(s: Tasks, p: nat, t: int)
    requires Distinct(s.order) && t in s.order && p <= IndexOf(s.order, t)
    ensures var s' := SwitchTo(s, p); t in s'.order && (IsCurrent(s', t) || Distance(s', t) < Distance(s, t))
  {
    if p < IndexOf(s.order, t) {
      SwitchShortens(s, p, t);
    } else {
      assert Turn(s.order, p + 1)[|s.order| - 1] == t;
    }
  }

  lemma {:induction false} FirstBefore(s: Tasks, n: nat, tick: int, i: nat, j: nat)
    requires i <= n <= |s.order| && i <= j < |s.order| && Due(s, s.order[j], tick)
    ensures FirstRunnable(s, n, tick, i) <= j
    decreases n - i
  {
    if i < n && !Runnable(s, s.order[i], tick) { FirstBefore(s, n, tick, i + 1, j); }
  }

  lemma PickShortens(s: Tasks, tick: int, t: int)
    requires Distinct(s.order) && Due(s, t, tick)
    ensures var s' := Pick(s, tick); t in s'.order && (IsCurrent(s', t) || Distance(s', t) < Distance(s, t))
  {
    var n := |s.order|;
    if n > 1 {
      var p := FirstRunnable(s, n - 1, tick, 0);
      FirstBefore(s, n - 1, tick, 0, IndexOf(s.order, t));
      if p < n - 1 {
        SwitchToward(WakeUp(s, s.order[p], Running), p, t);
      } else {
        NoneBefore(s.order, t);
      }
    }
  }

  lemma NoneBefore(order: seq<int>, t: int)
    requires t in order && IndexOf(order, t) >= |order| - 1
    ensures order[|order| - 1] == t
  {}

  lemma ExitShortens(s: Tasks, t: int)
    requires Distinct(s.order) && t in s.order && Alive(s.status, t) && t != Current(s)
    ensures t in Exit(s).order && (IsCurrent(Exit(s), t) || Distance(Exit(s), t) < Distance(s, t))
  {
    var n := |s.order|;
    var s1 := s.(status := s.status[Current(s) := Dead], need := true);
    var p := FirstAlive(s1.status, s.order, n - 1, 0);
    AliveBefore(s1.status, s.order, n - 1, 0, IndexOf(s.order, t));
    if p < n - 1 {
      SwitchToward(WakeUp(s1, s.order[p], Ready), p, t);
    } else {
      NoneBefore(s.order, t);
    }
  }

  lemma {:induction false} AliveBefore(status: map<int, Status>, l: seq<int>, n: nat, i: nat, j: nat)
    requires i <= n <= |l| && i <= j < |l| && Alive(status, l[j])
    ensures FirstAlive(status, l, n, i) <= j
    decreases n - i
  {
    if i < n && !Alive(status, l[i]) { AliveBefore(status, l, n, i + 1, j); }
  }

  lemma CreateLengthens(s: Tasks, t: int)
    requires Inv(s) && t in s.order
    ensures t in Create(s).order && Distance(Create(s), t) <= Distance(s, t) + 1
  {
    CreateKeeps(s);
    var a, b := CreateSplits(s);
    var q := IndexOf(s.order, t);
    IndexUnique(Create(s).order, if q < |a| then q else q + 1);
  }

  /** The task could get the processor in this step: it is due at a scheduling, and alive at all others. */
  predicate Eligible(s: Tasks, e: Event, t: int) {
    t in s.order &&
    match e
    case Schedule(tick) => Due(s, t, tick)
    case ExitNow => Alive(s.status, t) && !IsCurrent(s, t)
    case _ => Alive(s.status, t)
  }

  /** A switch picks an eligible task or shortens its way; a creation lengthens it by at most one. */
  lemma StepDistance(s: Tasks, e: Event, t: int)
    requires Inv(s) && Allowed(s, e) && Eligible(s, e, t)
    ensures t in Do(s, e).order
    ensures IsSwitch(e) && !IsCurrent(Do(s, e), t) ==> Distance(Do(s, e), t) < Distance(s, t)
    ensures !IsSwitch(e) ==> Distance(Do(s, e), t) <= Distance(s, t) + if e.CreateOne? then 1 else 0
  {
    match e
    case Schedule(tick) => CleanupKeeps(s); CleanupShortens(s, t); PickShortens(Cleanup(s), tick, t);
    case ExitNow => ExitShortens(s, t);
    case CreateOne => CleanupKeeps(s); CleanupShortens(s, t); CreateLengthens(Cleanup(s), t);
    case Sleep(tick) =>
  }

  predicate IsRun(s: Tasks, es: seq<Event>)
    decreases |es|
  {
    es == [] || (Allowed(s, es[0]) && IsRun(Do(s, es[0]), es[1..]))
  }

  /** At every step of the run `t` is eligible, and no switch of the run picks it. */
  predicate PassedOver(s: Tasks, es: seq<Event>, t: int)
    requires IsRun(s, es)
    decreases |es|
  {
    es != [] ==>
      && Eligible(s, es[0], t) && (IsSwitch(es[0]) ==> !IsCurrent(Do(s, es[0]), t))
      && PassedOver(Do(s, es[0]), es[1..], t)
  }

  function Switches(es: seq<Event>): nat {
    if es == [] then 0 else (if IsSwitch(es[0]) then 1 else 0) + Switches(es[1..])
  }

  function Creations(es: seq<Event>): nat {
    if es == [] then 0 else (if es[0].CreateOne? then 1 else 0) + Creations(es[1..])
  }

  /**
   A task that is due whenever the scheduler runs, awake or asleep with its time come, is passed over
   by fewer switches than its distance, plus one per process created.
   */
  lemma {:induction false} BoundedWaiting(s: Tasks, es: seq<Event>, t: int)
    requires Inv(s) && IsRun(s, es) && PassedOver(s, es, t)
    ensures Switches(es) < Distance(s, t) + Creations(es)
    decreases |es|
  {
    if es != [] {
      var e := es[0];
      StepKeeps(s, e);
      StepDistance(s, e, t);
      BoundedWaiting(Do(s, e), es[1..], t);
    }
  }

  lemma {:induction false} RunKeeps(s: Tasks, es: seq<Event>)
    requires Inv(s) && IsRun(s, es)
    ensures Inv(After(s, es))
    decreases |es|
  {
    if es != [] {
      StepKeeps(s, es[0]);
      RunKeeps(Do(s, es[0]), es[1..]);
    }
  }

  function After(s: Tasks, es: seq<Event>): Tasks
    requires IsRun(s, es)
    decreases |es|
  {
    if es == [] then s else After(Do(s, es[0]), es[1..])
  }
}
