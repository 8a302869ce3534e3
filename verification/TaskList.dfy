/**
 The task ring as the kernel keeps it, linked by `next` pointers:
 cleanup_zombies, the scheduler's choice, exit and insertion, each proved equal to its step in TaskRing.
 */
module TaskList {
  import opened TaskRing

  const NULL: int := -1

  predicate Succ(next: map<int, int>, l: seq<int>, i: int)
    requires 0 <= i < |l|
  {
    l[i] in next && next[l[i]] == if i + 1 < |l| then l[i + 1] else l[0]
  }

  /** Exactly the tasks of `l` are allocated, and following `next` visits them in this order, round and round. */
  ghost predicate Linked(next: map<int, int>, l: seq<int>) {
    && l != [] && Distinct(l)
    && (forall x {:trigger x in next} :: x in next <==> x in l)
    && (forall i {:trigger Succ(next, l, i)} :: 0 <= i < |l| ==> Succ(next, l, i))
  }

  /** The successor on the ring. */
  lemma NextOf(next: map<int, int>, l: seq<int>, i: nat)
    requires Linked(next, l) && i < |l|
    ensures l[i] in next && next[l[i]] == if i + 1 < |l| then l[i + 1] else l[0]
  {
    assert Succ(next, l, i);
  }

  lemma LinkedTurn(next: map<int, int>, l: seq<int>, k: nat)
    requires Linked(next, l) && k <= |l|
    ensures Linked(next, Turn(l, k))
  {
    var r := Turn(l, k);
    var n := |l|;
    TurnMembers(l, k);
    forall i | 0 <= i < n ensures Succ(next, r, i) { NextOf(next, l, if i < n - k then i + k else i + k - n); }
  }

  /** Taking `c` out from behind `prev`. */
  lemma Unlink(next: map<int, int>, a: seq<int>, c: int, b: seq<int>)
    requires Linked(next, a + [c] + b) && a + b != []
    ensures var prev := if a != [] then a[|a| - 1] else b[|b| - 1];
      prev in next && prev != c && c in next && Linked(next[prev := next[c]] - {c}, a + b)
  {
    var l, r := a + [c] + b, a + b;
    var n, k := |r|, |a|;
    var prev := if a != [] then a[|a| - 1] else b[|b| - 1];
    assert l[k] == c && prev == l[if a != [] then k - 1 else n];
    var next' := next[prev := next[c]] - {c};
    RemoveDistinct(a, c, b);
    forall x ensures x in next' <==> x in r { assert x in l <==> x in r || x == c; }
    NextOf(next, l, k);
    forall i | 0 <= i < n ensures Succ(next', r, i) {
      assert r[i] in r;
      NextOf(next, l, if i < k then i else i + 1);
      var m := if a != [] then k - 1 else n - 1;
      if i != m { Apart(r, i, m); }
    }
  }

  lemma RemoveDistinct(a: seq<int>, c: int, b: seq<int>)
    requires Distinct(a + [c] + b)
    ensures Distinct(a + b) && c !in a + b
  {
    var l, r := a + [c] + b, a + b;
    assert l[|a|] == c;
    forall i, j | 0 <= i < j < |r| ensures Differ(r, i, j) {
      Apart(l, if i < |a| then i else i + 1, if j < |a| then j else j + 1);
    }
    forall i | 0 <= i < |r| ensures r[i] != c { Apart(l, if i < |a| then i else i + 1, |a|); }
  }

  /** The dead tasks of the ring, in order. */
  function DeadOf(s: seq<int>, status: map<int, Status>): seq<int> {
    if s == [] then [] else (if Alive(status, s[0]) then [] else [s[0]]) + DeadOf(s[1..], status)
  }

  lemma {:induction false} NoneDead(s: seq<int>, status: map<int, Status>)
    requires forall t :: t in s ==> Alive(status, t)
    ensures DeadOf(s, status) == [] && Live(s, status) == s
  {
    if s != [] {
      assert s[0] in s;
      NoneDead(s[1..], status);
    }
  }

  /** The pointers hold the ring of `s`, whose current task is `cur`. */
  ghost predicate Rings(s: Tasks, next: map<int, int>, cur: int) {
    Linked(next, s.order) && Inv(s) && Current(s) == cur
  }

  class Scheduler {
    var next: map<int, int>
    var status: map<int, Status>
    var wake: map<int, int>
    var rq: int
    var cur: int
    var need: bool
    var nextPid: int
    ghost var freed: seq<int>
    ghost var order: seq<int>

    ghost function Now(): Tasks
      reads this
    {
      Tasks(order, rq, status, wake, need, nextPid)
    }

    ghost predicate Valid()
      reads this
    {
      Rings(Now(), next, cur)
    }

    /** The search for the task before `curr`. */
    method Predecessor(curr: int, ghost a: seq<int>, ghost b: seq<int>) returns (prev: int)
      requires Linked(next, a + [curr] + b) && a + b != [] && rq == (a + [curr] + b)[0]
      ensures prev == if a != [] then a[|a| - 1] else b[|b| - 1]
    {
      ghost var l := a + [curr] + b;
      ghost var k := 0;
      prev := rq;
      assert l[|a|] == curr;
      NextOf(next, l, 0);
      while next[prev] != curr
        invariant 0 <= k < |l| && prev == l[k] && prev in next
        invariant next[l[k]] == if k + 1 < |l| then l[k + 1] else l[0]
        invariant a != [] ==> k < |a|
        decreases |l| - k
      {
        prev := next[prev];
        k := k + 1;
        NextOf(next, l, k);
      }
      if k + 1 < |l| && k + 1 != |a| { Apart(l, k + 1, |a|); }
      if k + 1 == |l| && a != [] { Apart(l, 0, |a|); }
    }

    /** Takes a dead task out of the ring and frees it. */
    method Remove(curr: int, ghost a: seq<int>, ghost b: seq<int>)
      requires Linked(next, a + [curr] + b) && a + b != [] && rq == (a + [curr] + b)[0] && cur in a + [curr] + b
      modifies this`next, this`rq, this`cur, this`freed
      ensures Linked(next, a + b) && rq == (a + b)[0] && cur in a + b
      ensures cur == if old(cur) == curr then (if b != [] then b[0] else a[0]) else old(cur)
      ensures freed == old(freed) + [curr]
    {
      ghost var l := a + [curr] + b;
      assert l[|a|] == curr;
      NextOf(next, l, |a|);
      var prev := Predecessor(curr, a, b);
      Unlink(next, a, curr, b);
      var after := next[curr];
      next := next[prev := after];
      if curr == rq { rq := after; }
      if cur == curr { cur := after; }
      next := next - {curr};
      freed := freed + [curr];
    }

    method Drop(curr: int, ghost w: Goal, ghost done: seq<int>, ghost todo: seq<int>)
      requires Swept(w, next, rq, cur, freed, done, todo) && todo != [] && curr == todo[0] && !Alive(w.status, curr)
      requires done + todo[1..] != []
      modifies this`next, this`rq, this`cur, this`freed
      ensures Swept(w, next, rq, cur, freed, done, todo[1..])
      ensures curr in old(next) && rq == if curr == old(rq) then old(next)[curr] else old(rq)
    {
      NextTodo(w, next, rq, cur, freed, done, todo);
      SweptRemove(w, next, rq, cur, freed, done, todo);
      Remove(curr, done, todo[1..]);
    }

    /**
     cleanup_zombies on any ring and any set of dead tasks: exactly the live tasks stay, in their order,
     every dead one is freed once, and ready_queue ends on the first live task, if there is one.
     */
    method CleanupZombies(ghost ring: seq<int>)
      requires Linked(next, ring) && rq == ring[0] && cur in ring && Known(ring, status, need)
      modifies this`next, this`rq, this`cur, this`need, this`freed
      ensures Finished(Goal(ring, status, old(cur), old(freed)), next, rq, cur, freed) && !need
    {
      if !need {
        NoneDead(ring, status);
        assert freed + [] == freed;
        return;
      }
      ghost var w := Goal(ring, status, cur, freed);
      SweptStart(w, next, rq);
      Sweep(w);
      need := false;
    }

    /** The loop of cleanup_zombies. */
    method Sweep(ghost w: Goal)
      requires w.ring != [] && Swept(w, next, rq, cur, freed, [], w.ring) && status == w.status && rq == w.ring[0]
      modifies this`next, this`rq, this`cur, this`freed
      ensures Finished(w, next, rq, cur, freed)
    {
      var curr, start, looped := rq, rq, false;
      ghost var done, todo := [], w.ring;
      while !looped
        invariant looped == (todo == []) && (!looped ==> curr == todo[0])
        invariant Swept(w, next, rq, cur, freed, done, todo) && (!looped ==> start == rq)
        decreases |todo|
      {
        curr, start, looped, done := SweepOne(curr, start, w, done, todo);
        todo := todo[1..];
      }
      SweptEnd(w, next, rq, cur, freed, done);
    }

    /** One turn of the loop: the task is kept, or taken out and freed. */
    method SweepOne(curr: int, start: int, ghost w: Goal, ghost done: seq<int>, ghost todo: seq<int>)
      returns (nextTask: int, start': int, looped: bool, ghost done': seq<int>)
      requires Swept(w, next, rq, cur, freed, done, todo) && todo != [] && curr == todo[0] && start == rq
      requires status == w.status
      modifies this`next, this`rq, this`cur, this`freed
      ensures Swept(w, next, rq, cur, freed, done', todo[1..]) && looped == (todo[1..] == [])
      ensures !looped ==> start' == rq && nextTask == todo[1]
    {
      NextTodo(w, next, rq, cur, freed, done, todo);
      nextTask, start', done' := next[curr], start, done;
      looped := nextTask == start;
      if status[curr] == Dead {
        if next[curr] == curr {
          SweptLast(w, next, rq, cur, freed, done, todo);
          rq := NULL;
          next := next - {curr};
          freed := freed + [curr];
        } else {
          Drop(curr, w, done, todo);
          if curr == start { start' := nextTask; }
        }
      } else {
        SweptKeep(w, next, rq, cur, freed, done, todo);
        done' := done + [curr];
      }
    }

    method CleanupStep()
      requires Valid()
      modifies this
      ensures Valid() && Now() == Cleanup(old(Now())) && cur == old(cur)
    {
      ghost var s := Now();
      ghost var ring := RingFrom(s, next);
      CleanRing(s, ring);
      order := Cleanup(s).order;
    }

    method CleanRing(ghost s: Tasks, ghost ring: seq<int>)
      requires Rings(s, next, cur) && s == Now() && ring == Turn(s.order, IndexOf(s.order, s.rq))
      requires Linked(next, ring) && rq == ring[0] && cur in ring && Known(ring, status, need)
      modifies this`next, this`rq, this`cur, this`need, this`freed
      ensures Rings(Cleanup(s), next, cur) && cur == Current(s) && !need
      ensures Cleanup(s) == s.(order := Cleanup(s).order, rq := rq, need := false)
    {
      ghost var freed0 := freed;
      CleanupZombies(ring);
      CleanupEnd(s, ring, freed0, next, rq, cur, freed);
    }

    /** The scheduler's walk round the ring; `found` unless it came back to the current task. */
    method Scan(tick: int) returns (nxt: int, found: bool)
      requires Linked(next, order) && order[|order| - 1] == cur
      ensures Chosen(Now(), tick, nxt, found)
    {
      ghost var s := Now();
      ghost var n := |order|;
      ghost var k := 0;
      NextOf(next, order, n - 1);
      nxt := next[cur];
      found := true;
      while !MayRun(nxt, tick)
        invariant 0 <= k < n && nxt == order[k] && nxt in next
        invariant n > 1 ==> k < n - 1 && FirstRunnable(s, n - 1, tick, k) == FirstRunnable(s, n - 1, tick, 0)
        invariant n == 1 ==> k == 0
        decreases n - k
      {
        NextOf(next, order, k);
        nxt := next[nxt];
        if k + 1 < n - 1 { Apart(order, k + 1, n - 1); }
        if nxt == cur { return nxt, false; }
        k := k + 1;
        NextOf(next, order, k);
      }
    }

    predicate MayRun(t: int, tick: int)
      reads this
    {
      t in status &&
      (status[t] == Running || status[t] == Ready || (status[t] == Sleeping && t in wake && tick >= wake[t]))
    }

    method PickStep(tick: int)
      requires Valid() && !need
      modifies this`status, this`cur, this`order
      ensures Valid() && Now() == Pick(old(Now()), tick)
    {
      ghost var s := Now();
      var nxt, found := Scan(tick);
      PickForm(s, tick, nxt, found);
      PickKeeps(s, tick);
      if found { Resume(nxt, Running); }
    }

    method TaskScheduler(tick: int)
      requires Valid()
      modifies this
      ensures Valid() && Now() == Do(old(Now()), Schedule(tick))
    {
      CleanupStep();
      PickStep(tick);
    }

    /** The walk of exit_process past the dead. */
    method NextLive() returns (nxt: int)
      requires Linked(next, order) && order[|order| - 1] == cur && !Alive(status, cur) && Known(order, status, true)
      ensures var p := FirstAlive(status, order, |order| - 1, 0); nxt == order[p]
    {
      ghost var n := |order|;
      ghost var k := 0;
      NextOf(next, order, n - 1);
      nxt := next[cur];
      while nxt != cur && status[nxt] == Dead
        invariant 0 <= k < n && nxt == order[k] && nxt in status
        invariant k < n && FirstAlive(status, order, n - 1, k) == FirstAlive(status, order, n - 1, 0)
        decreases n - k
      {
        NextOf(next, order, k);
        nxt := next[nxt];
        k := k + 1;
        assert order[k] in order;
      }
      if k < n - 1 { Apart(order, k, n - 1); }
    }

    method ExitProcess()
      requires Valid() && Allowed(Now(), ExitNow)
      modifies this`status, this`need, this`cur, this`order
      ensures Valid() && Now() == Do(old(Now()), ExitNow)
    {
      ghost var s := Now();
      AllKnown(s);
      status := status[cur := Dead];
      need := true;
      Leave(s);
    }

    /** The rest of exit_process, once the current task of `s` is marked. */
    method Leave(ghost s: Tasks)
      requires Rings(s, next, cur) && Allowed(s, ExitNow) && Known(order, status, true)
      requires Now() == s.(status := s.status[cur := Dead], need := true)
      modifies this`status, this`cur, this`order
      ensures Valid() && Now() == Exit(s)
    {
      var nxt := NextLive();
      ExitForm(s, nxt);
      Resume(nxt, Ready);
    }

    /** The insertion at the end of create_process: right behind ready_queue. */
    method Insert()
      requires Valid()
      modifies this
      ensures Valid() && Now() == Create(old(Now()))
    {
      ghost var s := Now();
      CreateRings(s, next, cur);
      var temp := next[rq];
      next := next[nextPid := temp];
      next := next[rq := nextPid];
      status := status[nextPid := Ready];
      wake := wake[nextPid := 0];
      order := Create(s).order;
      nextPid := nextPid + 1;
    }

    method CreateProcess()
      requires Valid()
      modifies this
      ensures Valid() && Now() == Do(old(Now()), CreateOne)
    {
      CleanupStep();
      Insert();
    }

    /** A sleeping task is woken, and becomes the current one unless it is. */
    method Resume(nxt: int, to: Status)
      requires Linked(next, order) && order[|order| - 1] == cur && nxt in order && nxt in status
      modifies this`status, this`cur, this`order
      ensures Linked(next, order) && cur == nxt == order[|order| - 1]
      ensures Now() == var s1 := WakeUp(old(Now()), nxt, to);
        if nxt == old(cur) then s1 else s1.(order := Turn(old(order), IndexOf(old(order), nxt) + 1))
    {
      if status[nxt] == Sleeping { status := status[nxt := to]; }
      if nxt != cur { SwitchCurrent(nxt); }
    }

    /** current_task = nxt; the ring is seen from there. */
    method SwitchCurrent(nxt: int)
      requires Linked(next, order) && nxt in order
      modifies this`cur, this`order
      ensures cur == nxt && order == Turn(old(order), IndexOf(old(order), nxt) + 1) && Linked(next, order)
      ensures order[|order| - 1] == nxt
    {
      LinkedTurn(next, order, IndexOf(order, nxt) + 1);
      order := Turn(order, IndexOf(order, nxt) + 1);
      cur := nxt;
    }
  }

  lemma CleanupStart(s: Tasks)
    requires Inv(s)
    ensures var ring := Turn(s.order, IndexOf(s.order, s.rq));
      && ring[0] == s.rq && Current(s) in ring && Live(ring, s.status) != []
      && Known(ring, s.status, s.need)
  {
    var k := IndexOf(s.order, s.rq);
    var ring := Turn(s.order, k);
    TurnMembers(s.order, k);
    assert Current(s) in s.order;
    forall t | t in ring ensures t in s.status && (s.need || Alive(s.status, t)) { assert TaskOK(s, t); }
    LiveMembers(ring, s.status);
    assert Current(s) in Live(ring, s.status);
  }

  /** The ring from ready_queue on, ready for a cleanup. */
  lemma RingFrom(s: Tasks, next: map<int, int>) returns (ring: seq<int>)
    requires s.order != [] && Rings(s, next, Current(s))
    ensures ring == Turn(s.order, IndexOf(s.order, s.rq))
    ensures Linked(next, ring) && s.rq == ring[0] && Current(s) in ring && Known(ring, s.status, s.need)
  {
    ring := Turn(s.order, IndexOf(s.order, s.rq));
    LinkedTurn(next, s.order, IndexOf(s.order, s.rq));
    CleanupStart(s);
  }

  lemma CleanupEnd(s: Tasks, ring: seq<int>, freed0: seq<int>, next: map<int, int>, rq: int, cur: int, freed: seq<int>)
    requires Inv(s) && ring == Turn(s.order, IndexOf(s.order, s.rq))
    requires Finished(Goal(ring, s.status, Current(s), freed0), next, rq, cur, freed)
    ensures Rings(Cleanup(s), next, cur) && cur == Current(s)
    ensures Cleanup(s) == s.(order := Cleanup(s).order, rq := rq, need := false)
  {
    CleanupStart(s);
    CleanupKeeps(s);
    LinkedLive(next, s.order, IndexOf(s.order, s.rq), s.status);
    LiveFirst(Goal(ring, s.status, Current(s), freed0));
  }

  /** A live current task is the first of the live tasks from itself on. */
  lemma LiveFirst(w: Goal)
    requires w.cur in w.ring && Alive(w.status, w.cur)
    ensures Onward(w) != [] && Onward(w)[0] == w.cur
  {
    assert Turn(w.ring, IndexOf(w.ring, w.cur))[0] == w.cur;
  }

  lemma AllKnown(s: Tasks)
    requires Inv(s)
    ensures Known(s.order, s.status[Current(s) := Dead], true)
  {
    forall t | t in s.order ensures t in s.status { assert TaskOK(s, t); }
  }

  lemma ExitForm(s: Tasks, nxt: int)
    requires Inv(s) && Allowed(s, ExitNow)
    requires var p := FirstAlive(s.status[Current(s) := Dead], s.order, |s.order| - 1, 0); nxt == s.order[p]
    ensures nxt in s.order && nxt in s.status && nxt != Current(s)
    ensures var s1 := s.(status := s.status[Current(s) := Dead], need := true);
      Exit(s) == WakeUp(s1, nxt, Ready).(order := Turn(s.order, IndexOf(s.order, nxt) + 1))
    ensures Inv(Exit(s))
  {
    ExitKeeps(s);
    var p := NextAfterExit(s);
    IndexUnique(s.order, p);
    Apart(s.order, p, |s.order| - 1);
    assert TaskOK(s, nxt);
  }

  /** What the scheduler's walk found: the first task that may run, or the only one. */
  predicate Chosen(s: Tasks, tick: int, nxt: int, found: bool)
    requires s.order != []
  {
    if |s.order| == 1 then nxt == Current(s) && found == Runnable(s, nxt, tick)
    else
      var p := FirstRunnable(s, |s.order| - 1, tick, 0);
      found == (p < |s.order| - 1) && (found ==> nxt == s.order[p])
  }

  /** The scheduler's choice in terms of the task it found. */
  lemma PickForm(s: Tasks, tick: int, nxt: int, found: bool)
    requires Inv(s) && Chosen(s, tick, nxt, found)
    ensures found ==> nxt in s.order && nxt in s.status
    ensures Pick(s, tick) == if !found then s else
      var s1 := WakeUp(s, nxt, Running);
      if nxt == Current(s) then s1 else s1.(order := Turn(s.order, IndexOf(s.order, nxt) + 1))
  {
    if |s.order| > 1 && found {
      var p := FirstRunnable(s, |s.order| - 1, tick, 0);
      IndexUnique(s.order, p);
      Apart(s.order, p, |s.order| - 1);
    }
  }

  /** The ring from the current task on, after a cleanup that went round from ready_queue. */
  lemma LinkedLive(next: map<int, int>, order: seq<int>, k: nat, status: map<int, Status>)
    requires k <= |order| && Linked(next, Live(Turn(order, k), status))
    ensures Linked(next, Live(order, status))
  {
    var a, b := order[..k], order[k..];
    assert order == a + b;
    LiveAppend(a, b, status);
    LiveAppend(b, a, status);
    var l := Live(b, status) + Live(a, status);
    var m := |Live(b, status)|;
    LinkedTurn(next, l, m);
    assert Turn(l, m) == Live(a, status) + Live(b, status);
  }

  /** The new task linked in behind ready_queue. */
  lemma CreateRings(s: Tasks, next: map<int, int>, cur: int)
    requires Rings(s, next, cur)
    ensures s.rq in next && Rings(Create(s), next[s.nextPid := next[s.rq]][s.rq := s.nextPid], cur)
  {
    var a, b := CreateSplits(s);
    FreshPid(s);
    LinkedInsert(next, a, s.nextPid, b);
    CreateKeeps(s);
  }

  lemma LinkedInsert(next: map<int, int>, a: seq<int>, x: int, b: seq<int>)
    requires Linked(next, a + b) && x !in a + b && b != []
    ensures var prev := if a != [] then a[|a| - 1] else b[|b| - 1];
      prev in next && Linked(next[x := next[prev]][prev := x], a + [x] + b)
  {
    var l, r := a + b, a + [x] + b;
    var n, k := |r|, |a|;
    var p := if a != [] then k - 1 else n - 2;
    var prev := l[p];
    NextOf(next, l, p);
    var next' := next[x := next[prev]][prev := x];
    InsertDistinct(a, x, b);
    InsertMembers(a, x, b);
    forall i | 0 <= i < n ensures Succ(next', r, i) {
      if i != k {
        var q := if i < k then i else i - 1;
        NextOf(next, l, q);
        assert l[q] in l;
        if q != p { Apart(l, q, p); }
      }
    }
  }

  /** The tasks have a status, and a cleanup is asked for if one is dead. */
  ghost predicate Known(ring: seq<int>, status: map<int, Status>, need: bool) {
    forall t :: t in ring ==> t in status && (need || Alive(status, t))
  }

  /** What a cleanup starts from. */
  datatype Goal = Goal(ring: seq<int>, status: map<int, Status>, cur: int, freed: seq<int>)

  /**
   A cleanup has kept exactly the live tasks in their order, freed the others once each, and left
   ready_queue and the current task on live ones.
   */
  ghost predicate Finished(w: Goal, next: map<int, int>, rq: int, cur: int, freed: seq<int>) {
    var live := Live(w.ring, w.status);
    && (if live == [] then rq == NULL && next == map[] else Linked(next, live) && rq == live[0] && cur in live)
    && (Onward(w) != [] ==> cur == Onward(w)[0])
    && freed == w.freed + DeadOf(w.ring, w.status)
  }

  /** The live tasks from the current one on, round the ring. */
  function Onward(w: Goal): seq<int> { Live(Turn(w.ring, IndexOf(w.ring, w.cur)), w.status) }

  /** The current task is the first of them, or is still to be looked at and they lie ahead of it. */
  ghost predicate Heading(w: Goal, cur: int, done: seq<int>, todo: seq<int>) {
    if cur in todo then
      var j := IndexOf(todo, cur);
      Onward(w) == Live(todo[j..], w.status) + done + Live(todo[..j], w.status)
    else Onward(w) != [] && cur == Onward(w)[0]
  }

  lemma HeadingKeep(w: Goal, cur: int, done: seq<int>, todo: seq<int>)
    requires Heading(w, cur, done, todo) && todo != [] && Alive(w.status, todo[0]) && todo[0] !in todo[1..]
    ensures Heading(w, cur, done + [todo[0]], todo[1..])
  {
    var c, rest := todo[0], todo[1..];
    if cur in todo {
      var j := IndexOf(todo, cur);
      if cur == c {
        assert j == 0;
        assert todo[0..] == todo && todo[..0] == [];
        assert Onward(w)[0] == c;
      } else {
        IndexTail(todo, cur);
        assert rest[j - 1..] == todo[j..] && todo[..j] == [c] + rest[..j - 1];
        LiveAppend([c], rest[..j - 1], w.status);
        assert Live([c], w.status) == [c];
        assert Live(todo[j..], w.status) + done + ([c] + Live(rest[..j - 1], w.status))
            == Live(rest[j - 1..], w.status) + (done + [c]) + Live(rest[..j - 1], w.status);
      }
    }
  }

  lemma HeadingRemove(w: Goal, cur: int, cur': int, done: seq<int>, todo: seq<int>)
    requires Heading(w, cur, done, todo) && todo != [] && !Alive(w.status, todo[0]) && todo[0] !in todo[1..]
    requires done + todo[1..] != []
    requires (forall x :: x in done ==> x !in todo)
    requires cur' == if cur == todo[0] then (if todo[1..] != [] then todo[1..][0] else done[0]) else cur
    ensures Heading(w, cur', done, todo[1..])
  {
    var c, rest := todo[0], todo[1..];
    assert Live(todo, w.status) == Live(rest, w.status);
    if cur == c {
      assert IndexOf(todo, cur) == 0 && todo[0..] == todo && todo[..0] == [];
      if rest != [] {
        assert IndexOf(rest, cur') == 0 && rest[0..] == rest && rest[..0] == [];
      } else {
        assert done[0] in done;
      }
    } else if cur in todo {
      var j := IndexOf(todo, cur);
      IndexTail(todo, cur);
      assert rest[j - 1..] == todo[j..] && todo[..j] == [c] + rest[..j - 1];
      LiveAppend([c], rest[..j - 1], w.status);
      assert Live([c], w.status) == [];
    }
  }

  /** Behind the first position. */
  lemma IndexTail(s: seq<int>, t: int)
    requires s != [] && s[0] != t && t in s
    ensures t in s[1..] && IndexOf(s[1..], t) == IndexOf(s, t) - 1
  {
    var j := IndexOf(s, t);
    assert s[1..][j - 1] == t;
    IndexMin(s[1..], t, 0, j - 1);
    var i := IndexOf(s[1..], t);
    assert s[i + 1] == t;
    IndexMin(s, t, 0, i + 1);
  }

  lemma SweptStart(w: Goal, next: map<int, int>, rq: int)
    requires Linked(next, w.ring) && rq == w.ring[0] && w.cur in w.ring && forall t :: t in w.ring ==> t in w.status
    ensures Swept(w, next, rq, w.cur, w.freed, [], w.ring)
  {
    assert [] + w.ring == w.ring;
    assert [] + Live(w.ring, w.status) == Live(w.ring, w.status);
    HeadingStart(w);
  }

  lemma HeadingStart(w: Goal)
    requires w.cur in w.ring
    ensures Heading(w, w.cur, [], w.ring)
  {
    var j := IndexOf(w.ring, w.cur);
    LiveAppend(w.ring[j..], w.ring[..j], w.status);
    assert Live(w.ring[j..], w.status) + [] + Live(w.ring[..j], w.status) == Onward(w);
  }

  lemma SweptEnd(w: Goal, next: map<int, int>, rq: int, cur: int, freed: seq<int>, done: seq<int>)
    requires Swept(w, next, rq, cur, freed, done, [])
    ensures Finished(w, next, rq, cur, freed)
  {
    assert done + [] == done && freed + [] == freed;
    if done == [] { NoneOnward(w); }
  }

  lemma NoneOnward(w: Goal)
    requires Live(w.ring, w.status) == []
    ensures Onward(w) == []
  {
    var k := IndexOf(w.ring, w.cur);
    assert w.ring == w.ring[..k] + w.ring[k..];
    LiveAppend(w.ring[..k], w.ring[k..], w.status);
    LiveAppend(w.ring[k..], w.ring[..k], w.status);
  }

  /** Part way through a cleanup: `done` was looked at and kept, `todo` is still to come. */
  ghost predicate Swept(w: Goal, next: map<int, int>, rq: int, cur: int, freed: seq<int>, done: seq<int>,
                        todo: seq<int>) {
    && (if done + todo == [] then rq == NULL && next == map[]
        else Linked(next, done + todo) && rq == (done + todo)[0] && cur in done + todo)
    && (done + todo != [] ==> Heading(w, cur, done, todo))
    && Live(w.ring, w.status) == done + Live(todo, w.status)
    && w.freed + DeadOf(w.ring, w.status) == freed + DeadOf(todo, w.status)
    && (forall t :: t in todo ==> t in w.status)
  }

  /** The next task to look at, and where its successor is. */
  lemma NextTodo(w: Goal, next: map<int, int>, rq: int, cur: int, freed: seq<int>, done: seq<int>, todo: seq<int>)
    requires Swept(w, next, rq, cur, freed, done, todo) && todo != []
    ensures todo[0] in next && todo[0] in w.status && done + todo == done + [todo[0]] + todo[1..]
    ensures if |todo| > 1 then next[todo[0]] == todo[1] && todo[1] != rq else next[todo[0]] == rq
    ensures next[todo[0]] == todo[0] <==> done + todo[1..] == []
  {
    var l := done + todo;
    assert l[|done|] == todo[0] && todo[0] in todo;
    NextOf(next, l, |done|);
    if |todo| > 1 {
      assert l[|done| + 1] == todo[1];
      Apart(l, |done| + 1, 0);
      Apart(l, |done| + 1, |done|);
    }
    if done != [] { Apart(l, 0, |done|); }
  }

  lemma SweptKeep(w: Goal, next: map<int, int>, rq: int, cur: int, freed: seq<int>, done: seq<int>, todo: seq<int>)
    requires Swept(w, next, rq, cur, freed, done, todo) && todo != [] && Alive(w.status, todo[0])
    ensures Swept(w, next, rq, cur, freed, done + [todo[0]], todo[1..])
  {
    assert done + [todo[0]] + todo[1..] == done + todo;
    assert done + Live(todo, w.status) == done + [todo[0]] + Live(todo[1..], w.status);
    assert DeadOf(todo, w.status) == DeadOf(todo[1..], w.status);
    FirstOnce(done, todo);
    HeadingKeep(w, cur, done, todo);
  }

  lemma FirstOnce(done: seq<int>, todo: seq<int>)
    requires Distinct(done + todo) && todo != []
    ensures todo[0] !in todo[1..] && forall x :: x in done ==> x !in todo
  {
    var l, n := done + todo, |done|;
    forall i | 1 <= i < |todo| ensures todo[i] != todo[0] { Apart(l, n + i, n); }
    forall i, j | 0 <= i < n && 0 <= j < |todo| ensures done[i] != todo[j] { Apart(l, i, n + j); }
  }

  lemma SweptRemove(w: Goal, next: map<int, int>, rq: int, cur: int, freed: seq<int>, done: seq<int>, todo: seq<int>)
    requires Swept(w, next, rq, cur, freed, done, todo) && todo != [] && !Alive(w.status, todo[0])
    requires done + todo[1..] != []
    requires todo[0] in next && (|todo| > 1 ==> next[todo[0]] == todo[1])
    ensures (done + todo[1..])[0] == if todo[0] == rq then next[todo[0]] else rq
    ensures forall next', rq', cur' ::
      Linked(next', done + todo[1..]) && rq' == (done + todo[1..])[0] && cur' in done + todo[1..]
      && cur' == (if cur == todo[0] then (if todo[1..] != [] then todo[1..][0] else done[0]) else cur) ==>
      Swept(w, next', rq', cur', freed + [todo[0]], done, todo[1..])
  {
    assert (done + todo)[|done|] == todo[0];
    if done != [] { Apart(done + todo, 0, |done|); }
    assert Live(todo, w.status) == Live(todo[1..], w.status);
    assert freed + DeadOf(todo, w.status) == freed + [todo[0]] + DeadOf(todo[1..], w.status);
    FirstOnce(done, todo);
    var onward := if todo[1..] != [] then todo[1..][0] else done[0];
    HeadingRemove(w, cur, if cur == todo[0] then onward else cur, done, todo);
  }

  lemma SweptLast(w: Goal, next: map<int, int>, rq: int, cur: int, freed: seq<int>, done: seq<int>, todo: seq<int>)
    requires Swept(w, next, rq, cur, freed, done, todo) && todo != [] && !Alive(w.status, todo[0])
    requires done + todo[1..] == []
    ensures Swept(w, next - {todo[0]}, NULL, cur, freed + [todo[0]], done, todo[1..])
  {
    assert todo == [todo[0]] && done == [];
    assert done + todo == [todo[0]];
    forall x ensures x !in next - {todo[0]} { if x in next { assert x in done + todo; } }
    assert next - {todo[0]} == map[];
    assert Live(todo, w.status) == [];
    assert DeadOf(todo, w.status) == [todo[0]];
  }
}
