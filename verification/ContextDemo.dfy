/** context-demo.c: threads that a timer signal preempts, switched round robin from inside the signal handler. */
module ContextDemo {
  import opened Words

  /** Which stack a flow of control runs on. */
  datatype Stack = MainStack | Own(i: nat) | SignalStack

  /** The lines of main, timer_interrupt and scheduler a signal can land between. */
  datatype MainLine = SetTimer | Choose | Enter
  datatype Line = Count | Build | Swap | Uncount | Leave
  datatype SchedulerLine = Advance | Select | Resume

  /** One activation on a stack. A handler remembers the context it counted itself for, and the mask that
      its return restores. */
  datatype Activation =
    | Main(next: MainLine)
    | Body(i: nat)
    | Handler(line: Line, counted: nat, savedMask: bool)
    | Scheduler(at: SchedulerLine)

  datatype Calls = Outermost | Above(caller: Activation, rest: Calls)

  /** A flow of control, running or saved: its stack, the innermost activation on it and those below, and
      whether SIGALRM is blocked. */
  datatype Flow = Flow(stack: Stack, top: Activation, below: Calls, blocked: bool)

  /** How it has ended, if it has: by "Nested signals", or by following cur_context before that points anywhere. */
  datatype Fate = Going | NestedSignals | NullContext

  datatype State = State(
    n: nat,  // NUMCONTEXTS
    curcontext: nat,
    current: Option<nat>,  // the context that cur_context points to
    insig: seq<int>,
    contexts: seq<Flow>,
    signalContext: Flow,
    running: Flow,
    armed: bool,  // the timer is set
    pending: bool,
    fate: Fate,
    clobbered: bool,  // signal_stack was rebuilt while something lived on it
    mismatched: bool,  // a handler uncounted another context than it counted
    resumed: seq<nat>)  // the contexts control was passed to, in order

  datatype Event = Tick | Deliver | Go

  function Fresh(i: nat): Flow { Flow(Own(i), Body(i), Outermost, false) }

  // In a handler that interrupted its body.
  function Interrupted(i: nat, h: Activation): Flow { Flow(Own(i), h, Above(Body(i), Outermost), true) }

  // Inside its handler, about to continue after the swap.
  function Suspended(i: nat): Flow { Interrupted(i, Handler(Uncount, i, false)) }

  // In main, which has made the contexts and set up the signal; `blocked` tells whether it has blocked it too.
  function Initial(n: nat, blocked: bool): (s: State)
    requires n >= 1
    ensures WellFormed(s)
  {
    State(n, 0, None, seq(n, _ => 0), seq(n, i requires 0 <= i => Fresh(i)), Fresh(0),
          Flow(MainStack, Main(SetTimer), Outermost, blocked), false, false, Going, false, false, [])
  }

  predicate WellFormed(s: State) {
    |s.insig| == |s.contexts| == s.n && s.curcontext < s.n && (s.current.Some? ==> s.current.value < s.n)
  }

  predicate OnSignalStack(flows: seq<Flow>) {
    exists i :: 0 <= i < |flows| && flows[i].stack == SignalStack
  }

  // `masked` is the mask the scheduler context is given: whether it blocks SIGALRM.
  function Step(s: State, e: Event, masked: bool): (s': State)
    requires WellFormed(s)
    ensures WellFormed(s') && s'.n == s.n
  {
    if s.fate != Going then s
    else match e
      case Tick => s.(pending := s.pending || s.armed)
      case Deliver =>
        if s.pending && !s.running.blocked then
          s.(pending := false,
             running := Flow(s.running.stack, Handler(Count, 0, false), Above(s.running.top, s.running.below), true))
        else s
      case Go =>
        match s.running.top
        case Main(next) => MainStep(s, next)
        case Body(_) => s
        case Handler(line, counted, savedMask) => HandlerStep(s, line, counted, savedMask, masked)
        case Scheduler(at) => SchedulerStep(s, at)
  }

  function MainStep(s: State, next: MainLine): (s': State)
    requires WellFormed(s)
    ensures WellFormed(s') && s'.n == s.n
  {
    match next
    case SetTimer => s.(armed := true, running := s.running.(top := Main(Choose)))
    case Choose => s.(current := Some(0), running := s.running.(top := Main(Enter)))
    case Enter => s.(running := s.contexts[0], resumed := s.resumed + [0])
  }

  function HandlerStep(s: State, line: Line, counted: nat, savedMask: bool, masked: bool): (s': State)
    requires WellFormed(s)
    ensures WellFormed(s') && s'.n == s.n
  {
    match line
    case Count =>
      var s' := s.(insig := s.insig[s.curcontext := s.insig[s.curcontext] + 1]);
      if s.insig[s.curcontext] != 0 then s'.(fate := NestedSignals)
      else if s.current == None then s'.(fate := NullContext)
      else s'.(running := s.running.(top := Handler(Build, s.curcontext, savedMask)))
    case Build =>
      s.(signalContext := Flow(SignalStack, Scheduler(Advance), Outermost, masked),
         clobbered := s.clobbered || s.running.stack == SignalStack || OnSignalStack(s.contexts),
         running := s.running.(top := Handler(Swap, counted, savedMask)))
    case Swap =>
      if s.current == None then s.(fate := NullContext)
      else
        var back := s.running.(top := Handler(Uncount, counted, savedMask));
        s.(contexts := s.contexts[s.current.value := back], running := s.signalContext)
    case Uncount =>
      s.(insig := s.insig[s.curcontext := s.insig[s.curcontext] - 1],
         mismatched := s.mismatched || counted != s.curcontext,
         running := s.running.(top := Handler(Leave, counted, savedMask)))
    case Leave =>
      match s.running.below
      case Outermost => s
      case Above(caller, rest) => s.(running := Flow(s.running.stack, caller, rest, savedMask))
  }

  function SchedulerStep(s: State, at: SchedulerLine): (s': State)
    requires WellFormed(s)
    ensures WellFormed(s') && s'.n == s.n
  {
    match at
    case Advance =>
      s.(curcontext := (s.curcontext + 1) % s.n, running := s.running.(top := Scheduler(Select)))
    case Select =>
      s.(current := Some(s.curcontext), running := s.running.(top := Scheduler(Resume)))
    case Resume =>
      if s.current == None then s.(fate := NullContext)
      else s.(running := s.contexts[s.current.value], resumed := s.resumed + [s.current.value])
  }

  function Run(s: State, events: seq<Event>, masked: bool): (s': State)
    requires WellFormed(s)
    ensures WellFormed(s') && s'.n == s.n
    decreases |events|
  {
    if events == [] then s else Run(Step(s, events[0], masked), events[1..], masked)
  }

  lemma {:induction false} RunAppend(s: State, events: seq<Event>, more: seq<Event>, masked: bool)
    requires WellFormed(s)
    ensures Run(s, events + more, masked) == Run(Run(s, events, masked), more, masked)
    decreases |events|
  {
    if events == [] {
      assert events + more == more;
    } else {
      assert (events + more)[1..] == events[1..] + more;
      RunAppend(Step(s, events[0], masked), events[1..], more, masked);
    }
  }

  lemma RunOne(s: State, e: Event, masked: bool)
    requires WellFormed(s)
    ensures Run(s, [e], masked) == Step(s, e, masked)
  {
    assert [e][1..] == [];
  }

  lemma ModNext(i: nat, n: nat)
    requires i < n
    ensures (i + 1) % n == Next(i, n)
  {}

  function Last0(s: seq<nat>): nat { if s == [] then 0 else s[|s| - 1] }

  function Next(i: nat, n: nat): nat { if i + 1 < n then i + 1 else 0 }

  // Whether control is in the scheduler.
  predicate InScheduler(s: State) { s.running.top.Scheduler? }

  // No signal is delivered to the scheduler.
  predicate Spared(s: State, events: seq<Event>, masked: bool)
    requires WellFormed(s)
    decreases |events|
  {
    events == [] ||
    (&& !(events[0] == Deliver && s.pending && !s.running.blocked && InScheduler(s))
     && Spared(Step(s, events[0], masked), events[1..], masked))
  }

  // Context `i` is inside its handler, past the line that counts it: running there, or suspended there.
  predicate InHandler(s: State, i: nat)
    requires WellFormed(s) && i < s.n
  {
    if s.running.stack == Own(i) then Counted(s.running) else Counted(s.contexts[i])
  }

  predicate Counted(f: Flow) {
    f.top.Handler? && f.top.line in {Build, Swap, Uncount}
  }

  // A context that is not running: never run yet, or suspended, and counted accordingly.
  predicate AtRest(s: State, i: nat)
    requires WellFormed(s) && i < s.n
  {
    (s.contexts[i] == Fresh(i) && s.insig[i] == 0) || (s.contexts[i] == Suspended(i) && s.insig[i] == 1)
  }

  // Still in main, where the signal is blocked and nothing has run yet.
  ghost predicate RunsMain(s: State)
    requires WellFormed(s)
  {
    && s.running == Flow(MainStack, s.running.top, Outermost, true) && s.running.top.Main?
    && s.current == (if s.running.top.next == Enter then Some(0) else None)
    && s.curcontext == 0 && s.resumed == []
    && forall i :: 0 <= i < s.n ==> s.contexts[i] == Fresh(i) && s.insig[i] == 0
  }

  // The running flow is context `c` in its body or its handler.
  predicate RunsContext(s: State, c: nat)
    requires WellFormed(s) && c < s.n
  {
    && s.curcontext == c && s.current == Some(c)
    && (|| (s.running == Fresh(c) && s.insig[c] == 0)
        || (&& var h := s.running.top;
               && h.Handler? && s.running == Interrupted(c, h) && !h.savedMask
               && (h.line in {Build, Swap, Uncount} ==> h.counted == c && s.insig[c] == 1)
               && (h.line in {Count, Leave} ==> s.insig[c] == 0)))
  }

  // The running flow is the scheduler, entered from context `c`.
  predicate RunsScheduler(s: State, c: nat, masked: bool)
    requires WellFormed(s) && c < s.n
  {
    && s.running == Flow(SignalStack, s.running.top, Outermost, masked) && s.insig[c] == 1
    && match s.running.top
       case Scheduler(Advance) => s.curcontext == c && s.current == Some(c)
       case Scheduler(Select) => s.curcontext == Next(c, s.n) && s.current.Some?
       case Scheduler(Resume) => s.curcontext == Next(c, s.n) && s.current == Some(s.curcontext)
       case _ => false
  }

  ghost predicate Started(s: State, masked: bool)
    requires WellFormed(s)
  {
    && RoundRobin(s.resumed, s.n)
    && (if InScheduler(s) then RunsScheduler(s, Last0(s.resumed), masked) else RunsContext(s, Last0(s.resumed)))
    && (forall i :: 0 <= i < s.n ==> s.contexts[i].stack == Own(i))
    && (forall i {:trigger AtRest(s, i)} :: 0 <= i < s.n && (InScheduler(s) || i != s.curcontext) ==> AtRest(s, i))
    && (s.running.top.Handler? && s.running.top.line == Swap ==>
          s.signalContext == Flow(SignalStack, Scheduler(Advance), Outermost, masked))
  }

  ghost predicate Sound(s: State, masked: bool) {
    && WellFormed(s) && s.fate == Going && !s.clobbered && !s.mismatched
    && if s.running.top.Main? then RunsMain(s) else Started(s, masked)
  }

  // Each context is followed by the next one, cyclically, starting from 0.
  ghost predicate RoundRobin(r: seq<nat>, n: nat) {
    && |r| > 0 && r[0] == 0 && (forall k :: 0 <= k < |r| ==> r[k] < n)
    && forall k: nat {:trigger Follows(r, k, n)} :: k + 1 < |r| ==> Follows(r, k, n)
  }

  predicate Follows(r: seq<nat>, k: nat, n: nat)
    requires k + 1 < |r|
  {
    r[k + 1] == Next(r[k], n)
  }

  lemma RoundRobinAppend(r: seq<nat>, n: nat)
    requires RoundRobin(r, n) && n >= 1
    ensures RoundRobin(r + [Next(Last0(r), n)], n)
  {
    var r' := r + [Next(Last0(r), n)];
    forall k: nat | k + 1 < |r'| ensures Follows(r', k, n) {
      assert k + 1 < |r| ==> Follows(r, k, n);
    }
  }

  // If the rest of the state is right, what is at rest need only be looked at where something changed.
  lemma StillAtRest(s: State, s': State, c: nat)
    requires WellFormed(s) && WellFormed(s') && s.n == s'.n
    requires forall i :: 0 <= i < s.n && i != c ==> s'.contexts[i] == s.contexts[i] && s'.insig[i] == s.insig[i]
    requires forall i :: 0 <= i < s.n && i != c ==> AtRest(s, i)
    ensures forall i :: 0 <= i < s.n && i != c ==> AtRest(s', i)
  {
    forall i | 0 <= i < s.n && i != c ensures AtRest(s', i) {
      assert AtRest(s, i);
    }
  }

  lemma MainKeeps(s: State, e: Event, masked: bool)
    requires Sound(s, masked) && s.running.top.Main?
    ensures Sound(Step(s, e, masked), masked)
  {
    var s' := Step(s, e, masked);
    forall i | 0 <= i < s.n ensures AtRest(s', i) {}
  }

  lemma ContextKeeps(s: State, e: Event, masked: bool)
    requires Sound(s, masked) && !InScheduler(s) && !s.running.top.Main?
    ensures Sound(Step(s, e, masked), masked)
  {
    if e != Go || s.running.top.Body? {
      SignalKeeps(s, e, masked);
    } else if s.running.top.line == Swap {
      SwapKeeps(s, masked);
    } else if s.running.top.line in {Count, Uncount} {
      CountingKeeps(s, masked);
    } else {
      OtherLineKeeps(s, masked);
    }
  }

  lemma SignalKeeps(s: State, e: Event, masked: bool)
    requires Sound(s, masked) && (s.running.top.Handler? || s.running.top.Body?)
    requires e != Go || s.running.top.Body?
    ensures Sound(Step(s, e, masked), masked)
  {
    StillAtRest(s, Step(s, e, masked), s.curcontext);
  }

  lemma SwapKeeps(s: State, masked: bool)
    requires Sound(s, masked) && s.running.top.Handler? && s.running.top.line == Swap
    ensures Sound(Step(s, Go, masked), masked)
  {
    var s' := Step(s, Go, masked);
    var c := s.curcontext;
    StillAtRest(s, s', c);
    assert s'.contexts[c] == Suspended(c);
    assert AtRest(s', c);
  }

  // The lines that change `insig`.
  lemma CountingKeeps(s: State, masked: bool)
    requires Sound(s, masked) && s.running.top.Handler? && s.running.top.line in {Count, Uncount}
    ensures Sound(Step(s, Go, masked), masked)
  {
    var s' := Step(s, Go, masked);
    StillAtRest(s, s', s.curcontext);
    assert s'.resumed == s.resumed && s'.contexts == s.contexts;
  }

  lemma OtherLineKeeps(s: State, masked: bool)
    requires Sound(s, masked) && s.running.top.Handler? && s.running.top.line in {Build, Leave}
    ensures Sound(Step(s, Go, masked), masked)
  {
    var s' := Step(s, Go, masked);
    StillAtRest(s, s', s.curcontext);
    assert s'.resumed == s.resumed && s'.contexts == s.contexts && s'.insig == s.insig;
  }

  lemma SchedulerKeeps(s: State, e: Event, masked: bool)
    requires Sound(s, masked) && InScheduler(s) && (masked || e != Deliver || !s.pending)
    ensures Sound(Step(s, e, masked), masked)
  {
    if e == Go && s.running.top.at == Resume {
      ResumeKeeps(s, masked);
    } else {
      ModNext(s.curcontext, s.n);
      StillAtRest(s, Step(s, e, masked), s.n);
    }
  }

  lemma ResumeKeeps(s: State, masked: bool)
    requires Sound(s, masked) && s.running.top == Scheduler(Resume)
    ensures Sound(Step(s, Go, masked), masked)
  {
    assert AtRest(s, s.curcontext);
    RoundRobinAppend(s.resumed, s.n);
    StillAtRest(s, Step(s, Go, masked), s.n);
  }

  lemma StepKeeps(s: State, e: Event, masked: bool)
    requires Sound(s, masked)
    requires masked || !(e == Deliver && s.pending && InScheduler(s))
    ensures Sound(Step(s, e, masked), masked)
  {
    match s.running.top
    case Main(_) => MainKeeps(s, e, masked);
    case Scheduler(_) => SchedulerKeeps(s, e, masked);
    case _ => ContextKeeps(s, e, masked);
  }

  lemma {:induction false} RunKeeps(s: State, events: seq<Event>, masked: bool)
    requires Sound(s, masked) && (masked || Spared(s, events, masked))
    ensures Sound(Run(s, events, masked), masked)
    decreases |events|
  {
    if events != [] {
      StepKeeps(s, events[0], masked);
      RunKeeps(Step(s, events[0], masked), events[1..], masked);
    }
  }

  // The invariant the program is after.
  ghost predicate Consistent(s: State) {
    && WellFormed(s)
    && s.fate == Going && !s.clobbered && !s.mismatched
    && (forall i :: 0 <= i < s.n ==> s.insig[i] == if InHandler(s, i) then 1 else 0)
    && (s.resumed == [] || RoundRobin(s.resumed, s.n))
  }

  lemma SoundIsConsistent(s: State, masked: bool)
    requires Sound(s, masked)
    ensures Consistent(s)
  {
    if !s.running.top.Main? {
      forall i | 0 <= i < s.n
        ensures s.insig[i] == if InHandler(s, i) then 1 else 0
      {
        assert InScheduler(s) || i != s.curcontext ==> AtRest(s, i);
      }
    }
  }

  // With SIGALRM blocked in the scheduler, or if no signal happens to land there, every state is consistent:
  // `insig` counts exactly the contexts inside their handler, so the nested-signal exit is not reached, nothing
  // lives on the signal stack when it is rebuilt, and each handler uncounts the context it counted.
  lemma EveryRun(n: nat, events: seq<Event>, masked: bool)
    requires n >= 1 && (masked || Spared(Initial(n, true), events, masked))
    ensures Consistent(Run(Initial(n, true), events, masked))
  {
    RunKeeps(Initial(n, true), events, masked);
    SoundIsConsistent(Run(Initial(n, true), events, masked), masked);
  }

  // In main, the signal is blocked until cur_context points somewhere; without that, a tick in between would
  // make the handler follow a null pointer.
  lemma NullContextIffUnblocked(n: nat, blocked: bool, masked: bool)
    requires n >= 1
    ensures (forall events :: Run(Initial(n, blocked), events, masked).fate != NullContext) <==> blocked
  {
    if blocked {
      forall events ensures Run(Initial(n, blocked), events, masked).fate != NullContext {
        GuardedRun(Initial(n, blocked), events, masked);
      }
    } else {
      var s1 := Step(Initial(n, false), Go, masked);
      var s2 := Step(s1, Tick, masked);
      var s3 := Step(s2, Deliver, masked);
      assert s3.running.top == Handler(Count, 0, false) && s3.insig[0] == 0;
      RunFour(Initial(n, false), Go, Tick, Deliver, Go, masked);
    }
  }

  ghost predicate Guarded(s: State) {
    && WellFormed(s) && s.fate != NullContext
    && (s.current == None ==>
          s.running.top.Main? && s.running.top.next != Enter && s.running.blocked)
  }

  lemma {:induction false} GuardedRun(s: State, events: seq<Event>, masked: bool)
    requires Guarded(s)
    ensures Guarded(Run(s, events, masked))
    decreases |events|
  {
    if events != [] {
      GuardedStep(s, events[0], masked);
      GuardedRun(Step(s, events[0], masked), events[1..], masked);
    }
  }

  lemma GuardedStep(s: State, e: Event, masked: bool)
    requires Guarded(s)
    ensures Guarded(Step(s, e, masked))
  {
    if e == Go && s.fate == Going && s.running.top.Handler? {
      HandlerGuarded(s, s.running.top.line, s.running.top.counted, s.running.top.savedMask, masked);
    }
  }

  lemma HandlerGuarded(s: State, line: Line, counted: nat, savedMask: bool, masked: bool)
    requires WellFormed(s) && s.current.Some? && s.fate == Going
    ensures var s' := HandlerStep(s, line, counted, savedMask, masked); s'.current.Some? && s'.fate != NullContext
  {}

  lemma RunThree(s: State, a: Event, b: Event, c: Event, masked: bool)
    requires WellFormed(s)
    ensures Run(s, [a, b, c], masked) == Step(Step(Step(s, a, masked), b, masked), c, masked)
  {
    RunAppend(s, [a, b], [c], masked);
    RunAppend(s, [a], [b], masked);
    assert [a, b, c] == [a, b] + [c] && [a, b] == [a] + [b];
    RunOne(s, a, masked);
    var s1 := Step(s, a, masked);
    RunOne(s1, b, masked);
    RunOne(Step(s1, b, masked), c, masked);
  }

  lemma RunFour(s: State, a: Event, b: Event, c: Event, d: Event, masked: bool)
    requires WellFormed(s)
    ensures Run(s, [a, b, c, d], masked) == Step(Step(Step(Step(s, a, masked), b, masked), c, masked), d, masked)
  {
    RunThree(s, a, b, c, masked);
    RunAppend(s, [a, b, c], [d], masked);
    assert [a, b, c, d] == [a, b, c] + [d];
    RunOne(Run(s, [a, b, c], masked), d, masked);
  }

  // main, once it has blocked the signal.
  const START: seq<Event> := [Go, Go, Go]

  // A tick, and the handler up to the swap.
  const SWITCH: seq<Event> := [Tick, Deliver, Go, Go, Go]

  function NewScheduler(masked: bool): Flow { Flow(SignalStack, Scheduler(Advance), Outermost, masked) }

  function Entered(n: nat): State
    requires n >= 1
  {
    Initial(n, true).(armed := true, current := Some(0), running := Fresh(0), resumed := [0])
  }

  lemma StartRun(n: nat, masked: bool)
    requires n >= 1
    ensures Run(Initial(n, true), START, masked) == Entered(n)
  {
    RunThree(Initial(n, true), Go, Go, Go, masked);
  }

  predicate Interruptible(s: State) {
    WellFormed(s) && s.fate == Going && s.armed && !s.running.blocked && s.current.Some?
  }

  // What an interrupt comes to by the time its scheduler starts.
  function Switched(s: State, masked: bool): (s': State)
    requires Interruptible(s)
    ensures WellFormed(s')
  {
    var c := s.curcontext;
    var back := Flow(s.running.stack, Handler(Uncount, c, false), Above(s.running.top, s.running.below), true);
    s.(insig := s.insig[c := s.insig[c] + 1], contexts := s.contexts[s.current.value := back],
       signalContext := NewScheduler(masked), running := NewScheduler(masked), pending := false,
       clobbered := s.clobbered || s.running.stack == SignalStack || OnSignalStack(s.contexts))
  }

  lemma SwitchRun(s: State, masked: bool)
    requires Interruptible(s) && s.insig[s.curcontext] == 0
    ensures Run(s, SWITCH, masked) == Switched(s, masked)
  {
    var s2 := s.(pending := false,
      running := Flow(s.running.stack, Handler(Count, 0, false), Above(s.running.top, s.running.below), true));
    assert Step(Step(s, Tick, masked), Deliver, masked) == s2;
    RunFour(s, Tick, Deliver, Go, Go, masked);
    RunAppend(s, [Tick, Deliver, Go, Go], [Go], masked);
    assert SWITCH == [Tick, Deliver, Go, Go] + [Go];
    RunOne(Run(s, [Tick, Deliver, Go, Go], masked), Go, masked);
    HandlerRun(s, s2, masked);
  }

  lemma HandlerRun(s: State, s2: State, masked: bool)
    requires Interruptible(s) && s.insig[s.curcontext] == 0
    requires s2 == s.(pending := false,
      running := Flow(s.running.stack, Handler(Count, 0, false), Above(s.running.top, s.running.below), true))
    ensures Step(Step(Step(s2, Go, masked), Go, masked), Go, masked) == Switched(s, masked)
  {
    var c := s.curcontext;
    var s3 := Step(s2, Go, masked);
    assert s3 == s2.(insig := s.insig[c := 1], running := s2.running.(top := Handler(Build, c, false)));
    var s4 := Step(s3, Go, masked);
    assert s4.running == s2.running.(top := Handler(Swap, c, false)) && s4.signalContext == NewScheduler(masked);
  }

  // A second signal, landing in the scheduler before it advances.
  const NESTED_RUN: seq<Event> := START + SWITCH + [Tick, Deliver, Go]

  lemma NestedRunExits(n: nat)
    requires n >= 1
    ensures Run(Initial(n, true), NESTED_RUN, false).fate == NestedSignals
  {
    StartRun(n, false);
    SwitchRun(Entered(n), false);
    var s := Switched(Entered(n), false);
    RunAppend(Initial(n, true), START, SWITCH, false);
    RunAppend(Initial(n, true), START + SWITCH, [Tick, Deliver, Go], false);
    RunThree(s, Tick, Deliver, Go, false);
  }

  // Signals that each land in the scheduler just after it has advanced.
  function Rounds(j: nat): seq<Event> {
    if j == 0 then START else Rounds(j - 1) + SWITCH + [Go]
  }

  // By then every context so far is counted, and what context 0 resumes is the last of the handlers.
  ghost predicate AfterRounds(s: State, n: nat, j: nat)
    requires j >= 1
  {
    && WellFormed(s) && s.n == n && s.fate == Going && s.armed
    && s.running == NewScheduler(false).(top := Scheduler(Select)) && s.current == Some(0)
    && s.curcontext == (if j < n then j else 0)
    && (forall i :: 0 <= i < n ==> s.insig[i] == if i < j then 1 else 0)
    && s.contexts[0].top == Handler(Uncount, j - 1, false)
    && (j >= 2 ==> s.clobbered)
  }

  // The first `j` contexts are counted, and context `j` is the next to be.
  ghost predicate RoundStarts(s: State, j: nat) {
    && Interruptible(s) && s.current == Some(0) && s.curcontext == j
    && (forall i :: 0 <= i < s.n ==> s.insig[i] == if i < j then 1 else 0)
    && (j > 0 ==> s.running.stack == SignalStack)
  }

  lemma SwitchedAdvances(s: State, j: nat)
    requires RoundStarts(s, j)
    ensures AfterRounds(Step(Switched(s, false), Go, false), s.n, j + 1)
  {
    var t := Switched(s, false);
    ModNext(j, s.n);
    assert t.insig == s.insig[j := 1];
    assert t.contexts[0].top == Handler(Uncount, j, false);
  }

  lemma RoundStep(s: State, j: nat)
    requires RoundStarts(s, j)
    ensures AfterRounds(Run(s, SWITCH + [Go], false), s.n, j + 1)
  {
    RunAppend(s, SWITCH, [Go], false);
    SwitchRun(s, false);
    RunOne(Switched(s, false), Go, false);
    SwitchedAdvances(s, j);
  }

  lemma {:induction false} RoundsReach(n: nat, j: nat)
    requires 1 <= j <= n
    ensures AfterRounds(Run(Initial(n, true), Rounds(j), false), n, j)
  {
    assert Rounds(j) == Rounds(j - 1) + (SWITCH + [Go]);
    RunAppend(Initial(n, true), Rounds(j - 1), SWITCH + [Go], false);
    if j == 1 {
      StartRun(n, false);
    } else {
      RoundsReach(n, j - 1);
    }
    RoundStep(Run(Initial(n, true), Rounds(j - 1), false), j - 1);
  }

  // After a signal in every round of the scheduler, control comes back to a handler counted for another context.
  lemma MismatchedRun(n: nat)
    requires n >= 2
    ensures Run(Initial(n, true), Rounds(n) + START, false).mismatched
  {
    RoundsReach(n, n);
    var s := Run(Initial(n, true), Rounds(n), false);
    RunAppend(Initial(n, true), Rounds(n), START, false);
    RunThree(s, Go, Go, Go, false);
  }

  // A single context, with the empty mask: a signal that lands in the scheduler ends the program at once.
  ghost predicate Alone(s: State) {
    && WellFormed(s) && s.n == 1 && !s.clobbered && !s.mismatched
    && (|| Sound(s, false)
        || s.fate == NestedSignals
        || (&& s.fate == Going && s.running.blocked && s.insig[0] == 1
            && s.running.top.Handler? && s.running.top.line == Count))
  }

  lemma AloneStep(s: State, e: Event)
    requires Alone(s)
    ensures Alone(Step(s, e, false))
  {
    if Sound(s, false) && !(e == Deliver && s.pending && InScheduler(s)) { StepKeeps(s, e, false); }
  }

  lemma {:induction false} AloneRun(s: State, events: seq<Event>)
    requires Alone(s)
    ensures Alone(Run(s, events, false))
    decreases |events|
  {
    if events != [] {
      AloneStep(s, events[0]);
      AloneRun(Step(s, events[0], false), events[1..]);
    }
  }

  // The nested-signal exit is unreachable exactly if the scheduler runs with SIGALRM blocked; the empty mask
  // that timer_interrupt gives it does not do that. All of the invariant holds exactly then.
  lemma NoNestedSignalsIffMasked(n: nat, masked: bool)
    requires n >= 1
    ensures (forall events :: Run(Initial(n, true), events, masked).fate != NestedSignals) <==> masked
    ensures (forall events :: Consistent(Run(Initial(n, true), events, masked))) <==> masked
  {
    if masked {
      forall events ensures Consistent(Run(Initial(n, true), events, masked)) {
        EveryRun(n, events, masked);
      }
    } else {
      NestedRunExits(n);
      assert !Consistent(Run(Initial(n, true), NESTED_RUN, masked));
    }
  }

  // With one context nothing else can go wrong. With more, the signal stack can be rebuilt while it is in use,
  // and handlers can uncount other contexts than they counted, unless the scheduler's mask blocks SIGALRM.
  lemma StackAndCountsSafeIff(n: nat, masked: bool)
    requires n >= 1
    ensures (forall events :: !Run(Initial(n, true), events, masked).clobbered) <==> masked || n == 1
    ensures (forall events :: !Run(Initial(n, true), events, masked).mismatched) <==> masked || n == 1
  {
    var s := Initial(n, true);
    if masked || n == 1 {
      forall events ensures !Run(s, events, masked).clobbered && !Run(s, events, masked).mismatched {
        if masked {
          EveryRun(n, events, masked);
        } else {
          AloneRun(s, events);
        }
      }
    } else {
      RoundsReach(n, 2);
      assert Run(s, Rounds(2), masked).clobbered;
      MismatchedRun(n);
    }
  }

  // Control is in the body of a context, where the next tick finds it.
  ghost predicate InBody(s: State) {
    Sound(s, true) && s.armed && s.running.top.Body?
  }

  // A tick, the handler and the scheduler, and the rest of the handler that is resumed.
  const TURN: seq<Event> := SWITCH + [Go, Go, Go] + [Go, Go]

  // The scheduler passes control to the next context.
  lemma SchedulerRun(t: State)
    requires WellFormed(t) && t.fate == Going && t.running == NewScheduler(true)
    ensures var d := Next(t.curcontext, t.n);
            Run(t, [Go, Go, Go], true)
            == t.(curcontext := d, current := Some(d), running := t.contexts[d], resumed := t.resumed + [d])
  {
    ModNext(t.curcontext, t.n);
    RunThree(t, Go, Go, Go, true);
  }

  // A resumed context gets back to its body, uncounted and with SIGALRM unblocked.
  lemma BackInBody(s: State, d: nat)
    requires WellFormed(s) && s.fate == Going && d < s.n && s.curcontext == d
    requires s.running == Fresh(d) || s.running == Suspended(d)
    ensures Run(s, [Go, Go], true).running == Fresh(d)
    ensures Run(s, [Go, Go], true).resumed == s.resumed && Run(s, [Go, Go], true).armed == s.armed
  {
    RunAppend(s, [Go], [Go], true);
    assert [Go, Go] == [Go] + [Go];
    RunOne(s, Go, true);
    RunOne(Step(s, Go, true), Go, true);
  }

  lemma OneTurn(s: State)
    requires InBody(s)
    ensures var s' := Run(s, TURN, true);
            InBody(s') && s'.resumed == s.resumed + [Next(Last0(s.resumed), s.n)]
  {
    var c, d := s.curcontext, Next(s.curcontext, s.n);
    RunKeeps(s, TURN, true);
    RunAppend(s, SWITCH + [Go, Go, Go], [Go, Go], true);
    RunAppend(s, SWITCH, [Go, Go, Go], true);
    SwitchRun(s, true);
    var t := Switched(s, true);
    assert d != c ==> AtRest(s, d);
    SchedulerRun(t);
    BackInBody(Run(t, [Go, Go, Go], true), d);
  }

  function Turns(k: nat): seq<Event> {
    if k == 0 then START else Turns(k - 1) + TURN
  }

  lemma {:induction false} TurnsReach(n: nat, k: nat)
    requires n >= 1
    ensures var s := Run(Initial(n, true), Turns(k), true); InBody(s) && |s.resumed| == k + 1
  {
    if k == 0 {
      StartRun(n, true);
      RunKeeps(Initial(n, true), START, true);
    } else {
      TurnsReach(n, k - 1);
      RunAppend(Initial(n, true), Turns(k - 1), TURN, true);
      OneTurn(Run(Initial(n, true), Turns(k - 1), true));
    }
  }

  // With the mask, the contexts take turns for as long as there are ticks: after `k` of them, control has been
  // passed on `k` times and is in the body of context k modulo n, ready for the next.
  lemma Rotates(n: nat, k: nat)
    requires n >= 1
    ensures var s := Run(Initial(n, true), Turns(k), true);
            s.fate == Going && |s.resumed| == k + 1 && s.running == Flow(Own(k % n), Body(k % n), Outermost, false)
  {
    TurnsReach(n, k);
    ResumedIsModulo(Run(Initial(n, true), Turns(k), true).resumed, n, k);
  }

  // After `k` switches control is with context k modulo n.
  lemma {:induction false} ResumedIsModulo(r: seq<nat>, n: nat, k: nat)
    requires n >= 1 && RoundRobin(r, n) && k < |r|
    ensures r[k] == k % n
  {
    if k > 0 {
      ResumedIsModulo(r, n, k - 1);
      assert Follows(r, k - 1, n);
      ModSucc(k - 1, n);
    }
  }

  lemma ModSucc(k: nat, n: nat)
    requires n >= 1
    ensures (k + 1) % n == Next(k % n, n)
  {
    var q, m := k / n, k % n;
    assert k == q * n + m;
    if m + 1 < n {
      ModIs(k + 1, q, m + 1, n);
    } else {
      assert k + 1 == (q + 1) * n + 0;
      ModIs(k + 1, q + 1, 0, n);
    }
  }

  lemma ModIs(x: nat, q: nat, m: nat, n: nat)
    requires m < n && x == q * n + m
    ensures x % n == m
  {
    var p := x / n;
    assert x == p * n + x % n;
    if p < q { MulStep(p, q, n); }
    if q < p { MulStep(q, p, n); }
  }

  lemma MulStep(p: nat, q: nat, n: nat)
    requires p < q
    ensures p * n + n <= q * n
  {
    assert (q - p - 1) * n >= 0;
    assert q * n == p * n + n + (q - p - 1) * n;
  }

  // `d` switches on, for d up to n, control is `d` contexts further on, cyclically.
  lemma {:induction false} Further(r: seq<nat>, n: nat, k: nat, d: nat)
    requires n >= 1 && RoundRobin(r, n) && k + d < |r| && d <= n
    ensures r[k + d] == if r[k] + d < n then r[k] + d else r[k] + d - n
  {
    if d > 0 {
      Further(r, n, k, d - 1);
      assert Follows(r, k + d - 1, n);
    }
  }

  // Between two resumptions of one context with none in between, every other context is resumed exactly once.
  lemma OnceEach(r: seq<nat>, n: nat, k: nat, l: nat, i: nat)
    requires n >= 1 && RoundRobin(r, n) && k < l < |r| && r[k] == r[l]
    requires forall m :: k < m < l ==> r[m] != r[k]
    requires i < n && i != r[k]
    ensures l == k + n
    ensures exists m :: k < m < l && r[m] == i && forall m' :: k < m' < l && r[m'] == i ==> m' == m
  {
    if l < k + n {
      Further(r, n, k, l - k);
      assert false;
    }
    Further(r, n, k, n);
    assert l == k + n;
    var d := if i > r[k] then i - r[k] else i + n - r[k];
    Further(r, n, k, d);
    forall m' | k < m' < l && r[m'] == i ensures m' == k + d {
      Further(r, n, k, m' - k);
    }
  }

  /** The program's globals and its flow of control, updated in place. */
  class Program {
    const n: nat
    var curcontext: nat
    var current: Option<nat>
    const insig: array<int>
    const contexts: array<Flow>
    var signalContext: Flow
    var running: Flow
    var armed: bool
    var pending: bool
    var fate: Fate
    ghost var clobbered: bool
    ghost var mismatched: bool
    ghost var resumed: seq<nat>

    ghost function View(): State
      reads this, insig, contexts
    {
      State(n, curcontext, current, insig[..], contexts[..], signalContext, running, armed, pending, fate,
            clobbered, mismatched, resumed)
    }

    ghost predicate Valid()
      reads this, insig, contexts
    {
      WellFormed(View())
    }

    // main: makes every context, and sets up the signal; `blocked` tells whether it then blocks it.
    constructor (n: nat, blocked: bool)
      requires n >= 1
      ensures Valid() && View() == Initial(n, blocked) && fresh(insig) && fresh(contexts)
    {
      this.n := n;
      insig := new int[n](_ => 0);
      contexts := new Flow[n](i requires 0 <= i => Fresh(i));
      curcontext, current, signalContext := 0, None, Fresh(0);
      running := Flow(MainStack, Main(SetTimer), Outermost, blocked);
      armed, pending, fate := false, false, Going;
      clobbered, mismatched, resumed := false, false, [];
      new;
      assert insig[..] == Initial(n, blocked).insig;
      assert contexts[..] == Initial(n, blocked).contexts;
    }

    // The rest of main: the timer, and control to the first context.
    method StartUp(masked: bool)
      requires Valid() && fate == Going && running.top.Main?
      modifies this
      ensures Valid() && View() == Step(old(View()), Go, masked)
    {
      match running.top.next
      case SetTimer =>
        armed := true;
        running := running.(top := Main(Choose));
      case Choose =>
        current := Some(0);
        running := running.(top := Main(Enter));
      case Enter =>
        running := contexts[0];
        resumed := resumed + [0];
    }

    // timer_interrupt: counts itself.
    method EnterInterrupt(masked: bool)
      requires Valid() && fate == Going && running.top.Handler? && running.top.line == Count
      modifies this, insig
      ensures Valid() && View() == Step(old(View()), Go, masked)
    {
      var signest := insig[curcontext];
      insig[curcontext] := signest + 1;
      assert insig[..] == old(insig[..])[curcontext := signest + 1];
      if signest != 0 {
        fate := NestedSignals;
      } else if current == None {
        fate := NullContext;
      } else {
        running := running.(top := Handler(Build, curcontext, running.top.savedMask));
      }
    }

    // The new scheduler context.
    method BuildScheduler(masked: bool)
      requires Valid() && fate == Going && running.top.Handler? && running.top.line == Build
      modifies this
      ensures Valid() && View() == Step(old(View()), Go, masked)
    {
      clobbered := clobbered || running.stack == SignalStack || OnSignalStack(contexts[..]);
      signalContext := Flow(SignalStack, Scheduler(Advance), Outermost, masked);
      running := running.(top := running.top.(line := Swap));
    }

    // The swap: saves the running context, and goes to the scheduler.
    method SwapContext(masked: bool)
      requires Valid() && fate == Going && running.top.Handler? && running.top.line == Swap
      modifies this, contexts
      ensures Valid() && View() == Step(old(View()), Go, masked)
    {
      if current == None {
        fate := NullContext;
        return;
      }
      var back := running.(top := running.top.(line := Uncount));
      contexts[current.value] := back;
      assert contexts[..] == old(contexts[..])[current.value := back];
      running := signalContext;
    }

    // What is left of timer_interrupt once the context is resumed.
    method LeaveInterrupt(masked: bool)
      requires Valid() && fate == Going && running.top.Handler? && running.top.line in {Uncount, Leave}
      modifies this, insig
      ensures Valid() && View() == Step(old(View()), Go, masked)
    {
      var Handler(line, counted, savedMask) := running.top;
      if line == Uncount {
        insig[curcontext] := insig[curcontext] - 1;
        assert insig[..] == old(insig[..])[curcontext := insig[curcontext]];
        mismatched := mismatched || counted != curcontext;
        running := running.(top := Handler(Leave, counted, savedMask));
      } else if running.below.Above? {
        running := Flow(running.stack, running.below.caller, running.below.rest, savedMask);
      }
    }

    // The next line of the scheduler.
    method Schedule(masked: bool)
      requires Valid() && fate == Going && running.top.Scheduler?
      modifies this
      ensures Valid() && View() == Step(old(View()), Go, masked)
    {
      match running.top.at
      case Advance =>
        ModNext(curcontext, n);
        curcontext := (curcontext + 1) % n;
        running := running.(top := Scheduler(Select));
      case Select =>
        current := Some(curcontext);
        running := running.(top := Scheduler(Resume));
      case Resume =>
        if current == None {
          fate := NullContext;
        } else {
          running := contexts[current.value];
          resumed := resumed + [current.value];
        }
    }

    // The running flow goes on.
    method Continue(masked: bool)
      requires Valid() && fate == Going
      modifies this, insig, contexts
      ensures Valid() && View() == Step(old(View()), Go, masked)
    {
      match running.top
      case Main(_) => StartUp(masked);
      case Body(_) =>
      case Scheduler(_) => Schedule(masked);
      case Handler(line, _, _) =>
        match line
        case Count => EnterInterrupt(masked);
        case Build => BuildScheduler(masked);
        case Swap => SwapContext(masked);
        case _ => LeaveInterrupt(masked);
    }

    method Happen(e: Event, masked: bool)
      requires Valid()
      modifies this, insig, contexts
      ensures Valid() && View() == Step(old(View()), e, masked)
    {
      if fate != Going { return; }
      match e
      case Tick => pending := pending || armed;
      case Deliver =>
        if pending && !running.blocked {
          pending := false;
          running := Flow(running.stack, Handler(Count, 0, false), Above(running.top, running.below), true);
        }
      case Go => Continue(masked);
    }

    // A whole schedule of events, from any consistent point on.
    method Play(events: seq<Event>, masked: bool)
      requires SoundAt(masked)
      requires masked || Spared(View(), events, masked)
      modifies this, insig, contexts
      ensures View() == Run(old(View()), events, masked) && Consistent(View())
    {
      ghost var start := View();
      for i := 0 to |events|
        invariant Valid() && View() == Run(start, events[..i], masked)
      {
        RunAppend(start, events[..i], [events[i]], masked);
        RunOne(View(), events[i], masked);
        assert events[..i + 1] == events[..i] + [events[i]];
        Happen(events[i], masked);
      }
      assert events[..|events|] == events;
      RunKeeps(start, events, masked);
      SoundIsConsistent(View(), masked);
    }

    ghost predicate SoundAt(masked: bool)
      reads this, insig, contexts
    {
      Sound(View(), masked)
    }
  }
}
