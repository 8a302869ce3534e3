/**
 Signals of one task (kernel/task/task.c and the signal calls of
 kernel/syscalls/syscalls.c): one level of saved frame, delivery on the way back to user code.
 */
module Signals {
  const MAX_SIG: int := 32
  const SIGINT: int := 2
  const SIGKILL: int := 9
  const DEFAULT: int := 0
  const IGNORE: int := 1
  const TRAMPOLINE: int := 0x100000

  datatype Frame = Frame(edi: int, esi: int, ebp: int, espDummy: int, ebx: int, edx: int, ecx: int, eax: int,
                         eip: int, cs: int, eflags: int)

  /** `sent` and `delivered` record the signals that became pending and those a handler was entered for. */
  datatype Sig = Sig(id: int, pending: set<int>, handlers: map<int, int>, saved: Frame, inHandler: bool, kill: bool,
                     sent: seq<int>, delivered: seq<int>)

  // ----- Steps -----

  function Handler(s: Sig, sig: int): int { if sig in s.handlers then s.handlers[sig] else DEFAULT }

  /** send_signal to this task. */
  function Send(s: Sig, sig: int): Sig {
    if sig < 1 || sig >= MAX_SIG || s.id <= 1 then s
    else if sig == SIGKILL then s.(kill := true)
    else s.(pending := s.pending + {sig}, sent := s.sent + [sig])
  }

  /** The loop of check_signals from `sig` on; the frame is what the task goes on with. */
  function Deliver(s: Sig, f: Frame, sig: nat): (Sig, Frame)
    decreases MAX_SIG - sig
  {
    if sig >= MAX_SIG then (s, f)
    else if sig !in s.pending then Deliver(s, f, sig + 1)
    else
      var s1 := s.(pending := s.pending - {sig});
      var h := Handler(s, sig);
      if h == IGNORE then Deliver(s1, f, sig + 1)
      else if h == DEFAULT then (s1.(kill := s.kill || sig == SIGINT || sig == SIGKILL), f)
      else (s1.(saved := f, inHandler := true, delivered := s.delivered + [sig]),
        f.(eip := TRAMPOLINE, eax := h, ebx := sig))
  }

  /** check_signals on the way back to user code with frame `f`. */
  function Check(s: Sig, f: Frame): (Sig, Frame) {
    if s.id <= 1 || s.inHandler || s.pending == {} then (s, f) else Deliver(s, f, 1)
  }

  /** The sigreturn call: the saved frame comes back, and signals are looked at again before it is used. */
  function Return(s: Sig, f: Frame): (Sig, Frame) {
    if s.inHandler then Check(s.(inHandler := false), s.saved) else Check(s, f)
  }

  function SetHandler(s: Sig, sig: int, h: int): Sig {
    if 0 < sig < MAX_SIG then s.(handlers := s.handlers[sig := h]) else s
  }

  /** `frame` is what the task was interrupted with, or called with. */
  datatype Event =
    | SendTo(sig: int)
    | Interrupt(frame: Frame)
    | SigReturn(frame: Frame)
    | SigAction(sig: int, handler: int, frame: Frame)

  function Do(s: Sig, e: Event): (Sig, Frame) {
    match e
    case SendTo(sig) => (Send(s, sig), s.saved)
    case Interrupt(f) => Check(s, f)
    case SigReturn(f) => Return(s, f)
    case SigAction(sig, h, f) => Check(SetHandler(s, sig, h), f)
  }

  function After(s: Sig, es: seq<Event>): Sig
    decreases |es|
  {
    if es == [] then s else After(Do(s, es[0]).0, es[1..])
  }

  // ----- What delivery does -----

  /** The least pending signal from `k` on that is not ignored, or the bound. */
  function Chosen(s: Sig, k: nat): (c: nat)
    requires k <= MAX_SIG
    ensures k <= c <= MAX_SIG && (c < MAX_SIG ==> c in s.pending && Handler(s, c) != IGNORE)
    decreases MAX_SIG - k
  {
    if k == MAX_SIG || (k in s.pending && Handler(s, k) != IGNORE) then k else Chosen(s, k + 1)
  }

  lemma {:induction false} ChosenLeast(s: Sig, k: nat, x: nat)
    requires k <= x < MAX_SIG && x in s.pending && Handler(s, x) != IGNORE
    ensures Chosen(s, k) <= x
    decreases MAX_SIG - k
  {
    if k < x { ChosenLeast(s, k + 1, x); }
  }

  lemma {:induction false} DeliverPending(s: Sig, f: Frame, k: nat, x: int)
    requires k <= MAX_SIG
    ensures x in Deliver(s, f, k).0.pending <==> x in s.pending && (x < k || x > Chosen(s, k) || x >= MAX_SIG)
    decreases MAX_SIG - k
  {
    if k < MAX_SIG {
      if k !in s.pending {
        DeliverPending(s, f, k + 1, x);
      } else if Handler(s, k) == IGNORE {
        var s1 := s.(pending := s.pending - {k});
        ChosenSame(s, s1, k, k + 1);
        DeliverPending(s1, f, k + 1, x);
      } else {
        TakenHere(s, f, k);
      }
    }
  }

  lemma TakenHere(s: Sig, f: Frame, k: nat)
    requires k < MAX_SIG && k in s.pending && Handler(s, k) != IGNORE
    ensures Deliver(s, f, k).0.pending == s.pending - {k} && Chosen(s, k) == k
  {}

  lemma {:induction false} ChosenSame(s: Sig, s1: Sig, gone: nat, k: nat)
    requires gone < k <= MAX_SIG && s1 == s.(pending := s.pending - {gone})
    ensures Chosen(s1, k) == Chosen(s, k)
    decreases MAX_SIG - k
  {
    if k < MAX_SIG { ChosenSame(s, s1, gone, k + 1); }
  }

  /**
   Delivery takes the lowest signal that is not ignored: its handler is entered with the number and the
   address in registers and the interrupted frame saved, or its default action is taken.
   */
  lemma {:induction false} DeliverMeans(s: Sig, f: Frame, k: nat)
    requires k <= MAX_SIG
    ensures var (s', g), c := Deliver(s, f, k), Chosen(s, k);
      if c == MAX_SIG then g == f && s' == s.(pending := s'.pending)
      else if Handler(s, c) == DEFAULT then
        g == f && s' == s.(pending := s'.pending, kill := s.kill || c == SIGINT || c == SIGKILL)
      else
        && s' == s.(pending := s'.pending, saved := f, inHandler := true, delivered := s.delivered + [c])
        && g == f.(eip := TRAMPOLINE, eax := Handler(s, c), ebx := c)
    decreases MAX_SIG - k
  {
    if k < MAX_SIG {
      if k !in s.pending {
        DeliverMeans(s, f, k + 1);
      } else if Handler(s, k) == IGNORE {
        var s1 := s.(pending := s.pending - {k});
        ChosenSame(s, s1, k, k + 1);
        DeliverMeans(s1, f, k + 1);
      }
    }
  }

  // ----- What becomes of a signal -----

  /** Sending: SIGKILL marks the task, any other signal from 1 to 31 becomes pending, and nothing else happens. */
  lemma SendMeans(s: Sig, sig: int)
    ensures var s' := Do(s, SendTo(sig)).0;
      if s.id > 1 && sig == 9 then s' == s.(kill := true)
      else if s.id > 1 && 1 <= sig <= 31 then
        && sig in s'.pending && (forall x :: x != sig ==> (x in s'.pending <==> x in s.pending))
        && s' == s.(pending := s'.pending, sent := s.sent + [sig])
      else s' == s
  {}

  /** A pending signal above the reserved tasks' numbers that no handler run and no lower signal holds back. */
  ghost predicate Next(s: Sig, sig: int) {
    && s.id > 1 && !s.inHandler && 1 <= sig <= 31 && sig in s.pending && Handler(s, sig) != 1
    && forall x :: 1 <= x < sig && x in s.pending ==> Handler(s, x) == 1
  }

  /** Taken on the way back to user code with frame `f`: the handler is entered, or the default action taken. */
  ghost predicate Taken(s: Sig, f: Frame, sig: int, s': Sig, g: Frame) {
    && sig !in s'.pending && (forall x :: x > sig ==> (x in s'.pending <==> x in s.pending))
    && if Handler(s, sig) == 0 then
         g == f && s' == s.(pending := s'.pending, kill := s.kill || sig == 2 || sig == 9)
       else
         && s' == s.(pending := s'.pending, saved := f, inHandler := true, delivered := s.delivered + [sig])
         && g == f.(eip := 0x100000, eax := Handler(s, sig), ebx := sig)
  }

  /** The next interrupt takes the next signal. */
  lemma InterruptTakes(s: Sig, f: Frame, sig: int)
    requires Next(s, sig)
    ensures var (s', g) := Do(s, Interrupt(f)); Taken(s, f, sig, s', g)
  {
    DeliverTakes(s, f, sig);
  }

  lemma DeliverTakes(s: Sig, f: Frame, sig: int)
    requires Next(s, sig)
    ensures var (s', g) := Deliver(s, f, 1); Taken(s, f, sig, s', g)
  {
    ChosenLeast(s, 1, sig);
    ChosenNotIgnored(s, 1, sig);
    DeliverMeans(s, f, 1);
    DeliverPending(s, f, 1, sig);
    var s' := Deliver(s, f, 1).0;
    forall x | x > sig ensures x in s'.pending <==> x in s.pending { DeliverPending(s, f, 1, x); }
  }

  lemma {:induction false} ChosenNotIgnored(s: Sig, k: nat, sig: int)
    requires k <= sig < MAX_SIG && forall x :: k <= x < sig && x in s.pending ==> Handler(s, x) == IGNORE
    ensures Chosen(s, k) >= sig
    decreases MAX_SIG - k
  {
    if k < sig { ChosenNotIgnored(s, k + 1, sig); }
  }

  /** Nothing is taken inside a handler, by the reserved tasks, or when all that is pending is ignored. */
  lemma InterruptLeaves(s: Sig, f: Frame)
    ensures var (s', g) := Do(s, Interrupt(f));
      && (s.id <= 1 || s.inHandler || s.pending == {} ==> s' == s && g == f)
      && ((forall x :: 1 <= x <= 31 && x in s.pending ==> Handler(s, x) == 1) ==>
           g == f && s' == s.(pending := s'.pending) && forall x :: x in s'.pending ==> x in s.pending)
  {
    if forall x :: 1 <= x <= 31 && x in s.pending ==> Handler(s, x) == 1 {
      DeliverMeans(s, f, 1);
      forall x ensures x in Deliver(s, f, 1).0.pending ==> x in s.pending { DeliverPending(s, f, 1, x); }
    }
  }

  /** Leaving a handler is an interrupt at the point where the handler was entered. */
  lemma ReturnIsInterrupt(s: Sig, f: Frame)
    ensures Do(s, SigReturn(f)) ==
      if s.inHandler then Do(s.(inHandler := false), Interrupt(s.saved)) else Do(s, Interrupt(f))
  {}

  /** The handler of signals 1 to 31 is what was set last; setting one is followed by an interrupt. */
  lemma ActionSets(s: Sig, sig: int, h: int, f: Frame)
    ensures var s1 := if 1 <= sig <= 31 then s.(handlers := s.handlers[sig := h]) else s;
      && Do(s, SigAction(sig, h, f)) == Do(s1, Interrupt(f)) && Do(s, SigAction(sig, h, f)).0.handlers == s1.handlers
      && (1 <= sig <= 31 ==> Handler(s1, sig) == h) && forall x :: x != sig ==> Handler(s1, x) == Handler(s, x)
    ensures forall x :: x !in s.handlers ==> Handler(s, x) == 0
  {
    DeliverMeans(SetHandler(s, sig, h), f, 1);
  }

  /** Where the check in event `e` starts from: its state and the frame it would go on with. */
  function Start(s: Sig, e: Event): (Sig, Frame)
    requires !e.SendTo?
  {
    match e
    case Interrupt(f) => (s, f)
    case SigReturn(f) => if s.inHandler then (s.(inHandler := false), s.saved) else (s, f)
    case SigAction(sig, h, f) => (if 1 <= sig <= 31 then s.(handlers := s.handlers[sig := h]) else s, f)
  }

  /** A pending signal stays pending until a check ignores it or takes it. */
  lemma StaysPending(s: Sig, e: Event, x: int)
    requires x in s.pending && x !in Do(s, e).0.pending
    ensures !e.SendTo?
    ensures var (s1, f) := Start(s, e);
      && !s1.inHandler && s1.id > 1
      && (Handler(s1, x) == 1 || (Next(s1, x) && Taken(s1, f, x, Do(s, e).0, Do(s, e).1)))
  {
    if !e.SendTo? {
      var (s1, f) := Start(s, e);
      TakenOrIgnored(s1, f, x);
    }
  }

  lemma TakenOrIgnored(s: Sig, f: Frame, x: int)
    requires x in s.pending && x !in Check(s, f).0.pending
    ensures !s.inHandler && s.id > 1
    ensures Handler(s, x) == 1 || (Next(s, x) && Taken(s, f, x, Check(s, f).0, Check(s, f).1))
  {
    DeliverPending(s, f, 1, x);
    if Handler(s, x) != 1 {
      forall y | 1 <= y < x && y in s.pending ensures Handler(s, y) == 1 {
        if Handler(s, y) != 1 { ChosenLeast(s, 1, y); }
      }
      DeliverTakes(s, f, x);
    }
  }

  /** A signal sent while a handler runs is taken as soon as it returns, with the frame interrupted first. */
  lemma ReturnTakes(s: Sig, f: Frame, sig: int)
    requires s.inHandler && Next(s.(inHandler := false), sig)
    ensures var (s', g) := Do(s, SigReturn(f)); Taken(s.(inHandler := false), s.saved, sig, s', g)
  {
    InterruptTakes(s.(inHandler := false), s.saved, sig);
  }

  // ----- The interrupted frame -----

  /** A check either leaves the task alone or enters a handler with exactly the given frame saved. */
  lemma CheckSaves(s: Sig, f: Frame)
    ensures var (s', g) := Check(s, f);
      if s'.inHandler && !s.inHandler then s'.saved == f
      else g == f && s'.inHandler == s.inHandler && s'.saved == s.saved
  {
    DeliverMeans(s, f, 1);
  }

  /** Inside a handler the saved frame stays; leaving it resumes with that frame. */
  lemma StepKeepsFrame(s: Sig, e: Event)
    requires s.inHandler
    ensures var (s', g) := Do(s, e);
      if s'.inHandler then s'.saved == s.saved else e.SigReturn? && g == s.saved
  {
    if e.SigReturn? { CheckSaves(s.(inHandler := false), s.saved); }
  }

  /** The task is inside handlers during the whole run, except after its last step. */
  predicate Handling(s: Sig, es: seq<Event>)
    decreases |es|
  {
    s.inHandler && es != [] && (if |es| == 1 then !Do(s, es[0]).0.inHandler else Handling(Do(s, es[0]).0, es[1..]))
  }

  function Last(s: Sig, es: seq<Event>): Frame
    requires es != []
    decreases |es|
  {
    if |es| == 1 then Do(s, es[0]).1 else Last(Do(s, es[0]).0, es[1..])
  }

  /**
   Whatever happens inside handlers, one after the other, the task finally goes on with
   exactly the frame it was interrupted with.
   */
  lemma ResumesInterrupted(s: Sig, f: Frame, es: seq<Event>)
    requires !s.inHandler && Check(s, f).0.inHandler && Handling(Check(s, f).0, es)
    ensures es[|es| - 1].SigReturn? && Last(Check(s, f).0, es) == f
  {
    CheckSaves(s, f);
    KeepsToTheEnd(Check(s, f).0, es);
  }

  lemma {:induction false} KeepsToTheEnd(s: Sig, es: seq<Event>)
    requires Handling(s, es)
    ensures es[|es| - 1].SigReturn? && Last(s, es) == s.saved
    decreases |es|
  {
    StepKeepsFrame(s, es[0]);
    if |es| > 1 { KeepsToTheEnd(Do(s, es[0]).0, es[1..]); }
  }

  // ----- Counting -----

  function Times(l: seq<int>, sig: int): nat { multiset(l)[sig] }

  /** A signal is delivered, or waiting, no more often than it was sent; SIGKILL does neither. */
  ghost predicate Counted(s: Sig) {
    && SIGKILL !in s.pending && SIGKILL !in s.delivered
    && (forall x :: x in s.pending ==> 1 <= x < MAX_SIG)
    && (forall x {:trigger Owed(s, x)} :: Owed(s, x))
  }

  predicate Owed(s: Sig, x: int) {
    Times(s.delivered, x) + (if x in s.pending then 1 else 0) <= Times(s.sent, x)
  }

  lemma DeliverCounted(s: Sig, f: Frame)
    requires Counted(s)
    ensures Counted(Deliver(s, f, 1).0)
  {
    var s' := Deliver(s, f, 1).0;
    var c := Chosen(s, 1);
    DeliverMeans(s, f, 1);
    forall x ensures x in s'.pending ==> x in s.pending && x != c { DeliverPending(s, f, 1, x); }
    forall x ensures Owed(s', x) {
      assert Owed(s, x);
      DeliverPending(s, f, 1, x);
    }
  }

  lemma StepCounted(s: Sig, e: Event)
    requires Counted(s)
    ensures Counted(Do(s, e).0)
  {
    match e
    case SendTo(sig) => forall x ensures Owed(Send(s, sig), x) { assert Owed(s, x); }
    case Interrupt(f) => CheckCounted(s, f);
    case SigReturn(f) =>
      CheckCounted(s, f);
      if s.inHandler {
        SameCounts(s, s.(inHandler := false));
        CheckCounted(s.(inHandler := false), s.saved);
      }
    case SigAction(sig, h, f) =>
      SameCounts(s, SetHandler(s, sig, h));
      CheckCounted(SetHandler(s, sig, h), f);
  }

  lemma SameCounts(s: Sig, s': Sig)
    requires Counted(s) && s'.pending == s.pending && s'.delivered == s.delivered && s'.sent == s.sent
    ensures Counted(s')
  {
    forall x ensures Owed(s', x) { assert Owed(s, x); }
  }

  lemma CheckCounted(s: Sig, f: Frame)
    requires Counted(s)
    ensures Counted(Check(s, f).0)
  {
    DeliverCounted(s, f);
  }

  /** In every run. */
  lemma {:induction false} RunCounted(s: Sig, es: seq<Event>)
    requires Counted(s)
    ensures Counted(After(s, es))
    decreases |es|
  {
    if es != [] {
      StepCounted(s, es[0]);
      RunCounted(Do(s, es[0]).0, es[1..]);
    }
  }

  // ----- The calls as the kernel carries them out -----

  class Task {
    var id: int
    var pending: set<int>
    var handlers: map<int, int>
    var saved: Frame
    var inHandler: bool
    var kill: bool
    ghost var sent: seq<int>
    ghost var delivered: seq<int>

    ghost function Now(): Sig
      reads this
    {
      Sig(id, pending, handlers, saved, inHandler, kill, sent, delivered)
    }

    constructor (id: int, blank: Frame)
      ensures Counted(Now()) && !inHandler && this.id == id
    {
      this.id, pending, handlers, saved, inHandler, kill := id, {}, map[], blank, false, false;
      sent, delivered := [], [];
      new;
      forall x ensures Owed(Now(), x) {}
    }

    method SendSignal(sig: int)
      modifies this
      ensures Now() == Do(old(Now()), SendTo(sig)).0
    {
      if sig < 1 || sig >= MAX_SIG { return; }
      if id <= 1 { return; }
      if sig == SIGKILL {
        kill := true;
      } else {
        pending := pending + {sig};
        sent := sent + [sig];
      }
    }

    /** check_signals: `frame` is changed in place when a handler is entered. */
    method CheckSignals(frame: Frame) returns (frame': Frame)
      modifies this
      ensures (Now(), frame') == Check(old(Now()), frame)
    {
      frame' := frame;
      if id <= 1 || inHandler { return; }
      if pending == {} { return; }
      var sig := 1;
      while sig < MAX_SIG
        invariant 1 <= sig <= MAX_SIG
        invariant Deliver(Now(), frame, sig) == Deliver(old(Now()), frame, 1) && frame' == frame
      {
        if sig in pending {
          var handler := if sig in handlers then handlers[sig] else DEFAULT;
          pending := pending - {sig};
          if handler == DEFAULT {
            if sig == SIGINT || sig == SIGKILL { kill := true; }
            return;
          }
          if handler != IGNORE {
            saved := frame;
            inHandler := true;
            delivered := delivered + [sig];
            frame' := frame.(eip := TRAMPOLINE, eax := handler, ebx := sig);
            return;
          }
        }
        sig := sig + 1;
      }
    }

    /** The sigreturn call, with the check that follows every call. */
    method SigReturnCall(frame: Frame) returns (frame': Frame)
      modifies this
      ensures (Now(), frame') == Do(old(Now()), SigReturn(frame))
    {
      frame' := frame;
      if inHandler {
        frame' := saved;
        inHandler := false;
      }
      frame' := CheckSignals(frame');
    }

    method SigActionCall(sig: int, handler: int, frame: Frame) returns (frame': Frame)
      modifies this
      ensures (Now(), frame') == Do(old(Now()), SigAction(sig, handler, frame))
    {
      if 0 < sig < MAX_SIG { handlers := handlers[sig := handler]; }
      frame' := CheckSignals(frame);
    }
  }
}
