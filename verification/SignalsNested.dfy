/** signals-nested.cpp: a timer whose handler, entered again and again under SA_NODEFER, calls code that never
    returns. */
module SignalsNested {
  import opened Words
  import opened Machine
  import opened CodeGen
  import opened Signals

  const SIGALRM := 14
  const LIMIT := 1000
  const CALLS := 10

  /** A live handler: before its `sigcount++`, or in its call number `call` of the generated code. */
  datatype Handler = AtEntry | InTest(call: nat, cpu: Cpu)

  /** `exited` is the exit status, once there is one. */
  datatype State = State(p: Process, handlers: seq<Handler>, sigcount: nat, exited: int, running: bool)

  const INITIAL := State(IDLE, [], 0, 0, true)

  /** The timer expires, the innermost handler runs on, or the sleep in main ends. */
  datatype Event = Tick | Go | Wake

  const FIRST := Running(0, 0, false)

  function Step(s: State, e: Event, code: seq<byte>): State {
    if !s.running then s
    else match e
      case Tick =>
        var p := Post(s.p, SIGALRM);
        if CanDeliver(p, SIGALRM) then s.(p := Enter(p, SIGALRM, false), handlers := s.handlers + [AtEntry])
        else s.(p := p)
      case Wake => if s.handlers == [] then s.(exited := 1, running := false) else s
      case Go => if s.handlers == [] then s else GoOn(s, code)
  }

  function With(s: State, h: Handler): State
    requires s.handlers != []
  {
    s.(handlers := s.handlers[|s.handlers| - 1 := h])
  }

  function GoOn(s: State, code: seq<byte>): State
    requires s.handlers != []
  {
    match s.handlers[|s.handlers| - 1]
    case AtEntry =>
      var s' := s.(sigcount := s.sigcount + 1);
      if s.sigcount >= LIMIT then s'.(exited := 0, running := false) else With(s', InTest(0, FIRST))
    case InTest(call, cpu) =>
      var cpu' := Execute(code, cpu);
      if cpu'.Fault? then s.(exited := 139, running := false)
      else if !cpu'.Returned? then With(s, InTest(call, cpu'))
      else if call + 1 < CALLS then With(s, InTest(call + 1, FIRST))
      else if s.p.frames == [] then s
      else s.(p := Return(s.p), handlers := s.handlers[..|s.handlers| - 1])
  }

  function Run(s: State, events: seq<Event>, code: seq<byte>): State
    decreases |events|
  {
    if events == [] then s else Run(Step(s, events[0], code), events[1..], code)
  }

  // How many live handlers are past their `sigcount++`.
  function Counted(handlers: seq<Handler>): nat {
    if handlers == [] then 0
    else Counted(handlers[..|handlers| - 1]) + if handlers[|handlers| - 1].InTest? then 1 else 0
  }

  // Reached by running the generated code from its start.
  ghost predicate OnCode(code: seq<byte>, cpu: Cpu) {
    exists n: nat :: cpu == Steps(code, FIRST, n)
  }

  ghost predicate HandlerRight(code: seq<byte>, h: Handler) {
    h.InTest? ==> h.call == 0 && OnCode(code, h.cpu)
  }

  ghost predicate Valid(s: State, code: seq<byte>) {
    && s.p.mask == {} && |s.p.frames| == |s.handlers|
    && (forall i {:trigger HandlerRight(code, s.handlers[i])} ::
          0 <= i < |s.handlers| ==> HandlerRight(code, s.handlers[i]))
    && if s.running then s.sigcount == Counted(s.handlers) <= LIMIT
       else if s.exited == 0 then s.sigcount == LIMIT + 1 && Counted(s.handlers) == LIMIT
       else s.exited == 1 && s.handlers == [] && s.sigcount == 0
  }

  lemma OnCodeStep(code: seq<byte>, n: nat, cpu: Cpu)
    requires Generated(code, NESTED, n) && n >= 1 && OnCode(code, cpu)
    ensures cpu.Running? && OnCode(code, Execute(code, cpu)) && Execute(code, cpu).Running?
  {
    var k: nat :| cpu == Steps(code, FIRST, k);
    NestedNeverReturns(code, n, 0, false, k);
    NestedNeverReturns(code, n, 0, false, k + 1);
    StepsAdd(code, FIRST, k, 1);
    assert Steps(code, cpu, 1) == Steps(code, Execute(code, cpu), 0);
  }

  lemma CountedLast(handlers: seq<Handler>, h: Handler)
    requires handlers != []
    ensures var n := |handlers| - 1;
            Counted(handlers[n := h]) == Counted(handlers[..n]) + if h.InTest? then 1 else 0
  {
    var n := |handlers| - 1;
    assert handlers[n := h][..n] == handlers[..n];
  }

  // Every handler of `s` is still live in `s'`, at its place, and if it was in its first call of the code then,
  // it still is.
  ghost predicate StillLive(s: State, s': State) {
    && |s.handlers| <= |s'.handlers| && s.p.frames <= s'.p.frames
    && forall i {:trigger CallsOn(s.handlers[i], s'.handlers[i])} ::
         0 <= i < |s.handlers| ==> CallsOn(s.handlers[i], s'.handlers[i])
  }

  predicate CallsOn(h: Handler, h': Handler) {
    h.InTest? ==> h.call == 0 && h'.InTest? && h'.call == 0
  }

  lemma StillLiveThen(s: State, s': State, s'': State)
    requires StillLive(s, s') && StillLive(s', s'')
    ensures StillLive(s, s'')
  {
    forall i | 0 <= i < |s.handlers| ensures CallsOn(s.handlers[i], s''.handlers[i]) {
      assert CallsOn(s.handlers[i], s'.handlers[i]) && CallsOn(s'.handlers[i], s''.handlers[i]);
    }
  }

  lemma StillLiveItself(s: State, code: seq<byte>)
    requires Valid(s, code)
    ensures StillLive(s, s)
  {
    forall i | 0 <= i < |s.handlers| ensures CallsOn(s.handlers[i], s.handlers[i]) {
      assert HandlerRight(code, s.handlers[i]);
    }
  }

  // No step ends a handler: the code in NESTED never returns.
  lemma StepKeeps(s: State, e: Event, code: seq<byte>, n: nat)
    requires Valid(s, code) && Generated(code, NESTED, n) && n >= 1
    ensures Valid(Step(s, e, code), code)
    ensures StillLive(s, Step(s, e, code))
  {
    StillLiveItself(s, code);
    if s.running {
      match e
      case Wake =>
      case Tick => TickKeeps(s, code);
      case Go => if s.handlers != [] { GoKeeps(s, code, n); }
    }
  }

  lemma TickKeeps(s: State, code: seq<byte>)
    requires Valid(s, code) && s.running
    ensures Valid(Step(s, Tick, code), code)
    ensures StillLive(s, Step(s, Tick, code))
  {
    var s' := Step(s, Tick, code);
    assert s'.handlers[..|s.handlers|] == s.handlers;
    forall i | 0 <= i < |s'.handlers|
      ensures HandlerRight(code, s'.handlers[i])
      ensures i < |s.handlers| ==> CallsOn(s.handlers[i], s'.handlers[i])
    {
      assert i < |s.handlers| ==> HandlerRight(code, s.handlers[i]);
    }
  }

  lemma GoKeeps(s: State, code: seq<byte>, n: nat)
    requires s.running && s.handlers != []
    requires Valid(s, code) && Generated(code, NESTED, n) && n >= 1
    ensures Valid(GoOn(s, code), code)
    ensures StillLive(s, GoOn(s, code))
  {
    var last := |s.handlers| - 1;
    var h := s.handlers[last];
    var s' := GoOn(s, code);
    assert HandlerRight(code, h);
    if h.InTest? {
      OnCodeStep(code, n, h.cpu);
    } else {
      assert FIRST == Steps(code, FIRST, 0);
    }
    CountedLast(s.handlers, s'.handlers[last]);
    forall i | 0 <= i < |s'.handlers|
      ensures HandlerRight(code, s'.handlers[i]) && CallsOn(s.handlers[i], s'.handlers[i])
    {
      assert HandlerRight(code, s.handlers[i]);
    }
  }

  lemma {:induction false} RunKeeps(s: State, events: seq<Event>, code: seq<byte>, n: nat)
    requires Valid(s, code) && Generated(code, NESTED, n) && n >= 1
    ensures Valid(Run(s, events, code), code)
    ensures StillLive(s, Run(s, events, code))
    decreases |events|
  {
    if events == [] {
      StillLiveItself(s, code);
    } else {
      var s' := Step(s, events[0], code);
      StepKeeps(s, events[0], code, n);
      RunKeeps(s', events[1..], code, n);
      StillLiveThen(s, s', Run(s, events, code));
    }
  }

  // In every run: while the program is running, `sigcount` is the number of live handlers that have
  // counted themselves, so exactly the 1001st to do so exits; main only gets past its sleep if no handler
  // was ever entered.
  lemma EveryRun(events: seq<Event>, code: seq<byte>, n: nat)
    requires Generated(code, NESTED, n) && n >= 1
    ensures var s := Run(INITIAL, events, code);
            if s.running then s.sigcount == Counted(s.handlers) <= 1000
            else if s.exited == 0 then s.sigcount == 1001 && Counted(s.handlers) == 1000
            else s.exited == 1 && s.sigcount == 0 && s.handlers == []
  {
    RunKeeps(INITIAL, events, code, n);
  }

  // A handler, once entered, is live in every later state; once it calls the code, it stays in that call.
  lemma NoHandlerReturns(events: seq<Event>, more: seq<Event>, code: seq<byte>, n: nat)
    requires Generated(code, NESTED, n) && n >= 1
    ensures StillLive(Run(INITIAL, events, code), Run(INITIAL, events + more, code))
  {
    RunKeeps(INITIAL, events, code, n);
    RunAppend(INITIAL, events, more, code);
    RunKeeps(Run(INITIAL, events, code), more, code, n);
  }

  lemma {:induction false} RunAppend(s: State, events: seq<Event>, more: seq<Event>, code: seq<byte>)
    ensures Run(s, events + more, code) == Run(Run(s, events, code), more, code)
    decreases |events|
  {
    if events == [] {
      assert events + more == more;
    } else {
      assert (events + more)[1..] == events[1..] + more;
      RunAppend(Step(s, events[0], code), events[1..], more, code);
    }
  }

  function Gos(k: nat): seq<Event> {
    if k == 0 then [] else [Go] + Gos(k - 1)
  }

  lemma {:induction false} GosAdd(j: nat, k: nat)
    ensures Gos(j + k) == Gos(j) + Gos(k)
  {
    if j > 0 { GosAdd(j - 1, k); }
  }

  lemma RunGo(s: State, k: nat, code: seq<byte>)
    ensures Run(s, Gos(k + 1), code) == Run(Step(s, Go, code), Gos(k), code)
  {
    assert Gos(k + 1)[1..] == Gos(k);
  }

  // In its handler's turns the code runs, an instruction at a time, as it would by itself.
  lemma {:induction false} CodeRuns(s: State, call: nat, cpu: Cpu, k: nat, code: seq<byte>)
    requires s.running && s.handlers != [] && s.handlers[|s.handlers| - 1] == InTest(call, cpu)
    requires forall j: nat :: j <= k ==> Steps(code, cpu, j).Running?
    ensures Run(s, Gos(k), code) == With(s, InTest(call, Steps(code, cpu, k)))
    decreases k
  {
    if k == 0 {
      assert With(s, InTest(call, cpu)).handlers == s.handlers;
    } else {
      var cpu' := Execute(code, cpu);
      var s' := With(s, InTest(call, cpu'));
      assert Steps(code, cpu, 1) == Steps(code, cpu', 0);
      assert Step(s, Go, code) == s';
      RunGo(s, k - 1, code);
      forall j: nat | j <= k - 1 ensures Steps(code, cpu', j).Running? {
        assert Steps(code, cpu', j) == Steps(code, cpu, j + 1);
      }
      CodeRuns(s', call, cpu', k - 1, code);
      assert With(s', InTest(call, Steps(code, cpu, k))) == With(s, InTest(call, Steps(code, cpu, k)));
    }
  }

  // The code returns in its step number `m`.
  predicate ReturnsAt(code: seq<byte>, m: nat) {
    m > 0 && Steps(code, FIRST, m - 1).Running? && Steps(code, FIRST, m).Returned?
  }

  lemma RunningBefore(code: seq<byte>, m: nat, j: nat)
    requires ReturnsAt(code, m) && j < m
    ensures Steps(code, FIRST, j).Running?
  {
    StepsAdd(code, FIRST, j, m - 1 - j);
    if Steps(code, FIRST, j).Returned? {
      ReturnedStays(code, Steps(code, FIRST, j).eax, m - 1 - j);
    } else if Steps(code, FIRST, j).Fault? {
      FaultStays(code, m - 1 - j);
    }
  }

  // What a finished call of the code leads to.
  function NextCall(s: State, call: nat): State
    requires s.handlers != [] && s.p.frames != []
  {
    if call + 1 < 10 then With(s, InTest(call + 1, FIRST))
    else s.(p := Return(s.p), handlers := s.handlers[..|s.handlers| - 1])
  }

  lemma OneCall(s: State, call: nat, m: nat, code: seq<byte>)
    requires s.running && s.handlers != [] && s.handlers[|s.handlers| - 1] == InTest(call, FIRST)
    requires s.p.frames != [] && ReturnsAt(code, m)
    ensures Run(s, Gos(m), code) == NextCall(s, call)
  {
    forall j: nat | j <= m - 1 ensures Steps(code, FIRST, j).Running? {
      RunningBefore(code, m, j);
    }
    CodeRuns(s, call, FIRST, m - 1, code);
    var last := Steps(code, FIRST, m - 1);
    StepsAdd(code, FIRST, m - 1, 1);
    assert Steps(code, last, 1) == Steps(code, Execute(code, last), 0);
    GosAdd(m - 1, 1);
    RunAppend(s, Gos(m - 1), Gos(1), code);
    LastInstruction(s, call, last, code);
  }

  lemma LastInstruction(s: State, call: nat, last: Cpu, code: seq<byte>)
    requires s.running && s.handlers != [] && s.p.frames != [] && Execute(code, last).Returned?
    ensures Run(With(s, InTest(call, last)), Gos(1), code) == NextCall(s, call)
  {
    var s' := With(s, InTest(call, last));
    RunGo(s', 0, code);
    assert s'.handlers[..|s.handlers| - 1] == s.handlers[..|s.handlers| - 1];
    assert With(s', InTest(call + 1, FIRST)).handlers == With(s, InTest(call + 1, FIRST)).handlers;
  }

  lemma {:induction false} LastCalls(s: State, call: nat, m: nat, code: seq<byte>)
    requires s.running && s.handlers != [] && s.handlers[|s.handlers| - 1] == InTest(call, FIRST) && call < 10
    requires s.p.frames != [] && ReturnsAt(code, m)
    ensures Run(s, Gos((10 - call) * m), code) == s.(p := Return(s.p), handlers := s.handlers[..|s.handlers| - 1])
    decreases 10 - call
  {
    OneCall(s, call, m, code);
    if call + 1 < 10 {
      var s' := NextCall(s, call);
      assert (10 - call) * m == m + (10 - (call + 1)) * m;
      GosAdd(m, (10 - (call + 1)) * m);
      RunAppend(s, Gos(m), Gos((10 - (call + 1)) * m), code);
      LastCalls(s', call + 1, m, code);
      assert s'.handlers[..|s.handlers| - 1] == s.handlers[..|s.handlers| - 1];
    }
  }

  // Only the code keeps a handler from returning: if it returns in step `m`, the handler is gone after ten
  // calls, that is 10 * m instructions, with the mask of before its entry.
  lemma HandlerReturns(s: State, m: nat, code: seq<byte>)
    requires s.running && s.handlers != [] && s.handlers[|s.handlers| - 1] == InTest(0, FIRST)
    requires s.p.frames != [] && ReturnsAt(code, m)
    ensures Run(s, Gos(10 * m), code) == s.(p := Return(s.p), handlers := s.handlers[..|s.handlers| - 1])
  {
    LastCalls(s, 0, m, code);
  }

  // So with the immediates of signals-nested-2 every handler would return.
  lemma WouldReturn(s: State, code: seq<byte>, n: nat)
    requires s.running && s.handlers != [] && s.handlers[|s.handlers| - 1] == InTest(0, FIRST)
    requires s.p.frames != [] && Generated(code, NESTED2, n)
    ensures Run(s, Gos(10 * (5 * n + 1)), code) == s.(p := Return(s.p), handlers := s.handlers[..|s.handlers| - 1])
  {
    Nested2Returns(code, n, 0, false);
    HandlerReturns(s, 5 * n + 1, code);
  }

  // The shortest way to the exit: every handler counts itself before the next tick.
  function Alternate(k: nat): seq<Event> {
    if k == 0 then [] else Alternate(k - 1) + [Tick, Go]
  }

  lemma {:induction false} AlternateReaches(k: nat, code: seq<byte>)
    requires k <= LIMIT
    ensures var s := Run(INITIAL, Alternate(k), code);
            s.running && s.sigcount == |s.handlers| == k && s.p.mask == {} && |s.p.frames| == k
  {
    if k > 0 {
      AlternateReaches(k - 1, code);
      RunAppend(INITIAL, Alternate(k - 1), [Tick, Go], code);
      RunPair(Run(INITIAL, Alternate(k - 1), code), code);
    }
  }

  lemma RunPair(s: State, code: seq<byte>)
    ensures Run(s, [Tick, Go], code) == Step(Step(s, Tick, code), Go, code)
  {
    assert [Tick, Go][1..] == [Go] && [Go][1..] == [];
  }

  // Both exits are reachable: from the 1001st handler, with status 0, and from main, if no tick comes.
  lemma ExitReachable(code: seq<byte>)
    ensures var s := Run(INITIAL, Alternate(1000) + [Tick, Go], code);
            !s.running && s.exited == 0 && s.sigcount == 1001
    ensures var s := Run(INITIAL, [Wake], code);
            !s.running && s.exited == 1 && s.sigcount == 0
  {
    assert Run(INITIAL, [Wake], code) == Step(INITIAL, Wake, code) by {
      assert [Wake][1..] == [];
    }
    AlternateReaches(LIMIT, code);
    RunAppend(INITIAL, Alternate(LIMIT), [Tick, Go], code);
    RunPair(Run(INITIAL, Alternate(LIMIT), code), code);
  }

  /** The activation of the handler: whether it is past its `sigcount++`, and its place in the generated code. */
  class Activation {
    var counted: bool
    var call: nat
    var cpu: Cpu
    const caller: Activation?  // what it interrupted
    ghost const depth: nat

    constructor (caller: Activation?, ghost depth: nat)
      ensures this.caller == caller && this.depth == depth && View() == AtEntry
    {
      this.counted, this.call, this.cpu, this.caller, this.depth := false, 0, FIRST, caller, depth;
    }

    ghost function View(): Handler
      reads this
    {
      if counted then InTest(call, cpu) else AtEntry
    }

    method StartCall(call: nat)
      modifies this
      ensures View() == InTest(call, FIRST)
    {
      counted, this.call, cpu := true, call, FIRST;
    }
  }

  /** The process: its counter and the stack of its live handlers, updated in place. */
  class Program {
    var p: Process
    var innermost: Activation?
    var sigcount: nat
    var exited: int
    var running: bool
    ghost var stack: seq<Activation>  // from the outermost in

    ghost predicate InPlace(i: nat)
      reads `stack
    {
      && i < |stack| && stack[i].depth == i
      && stack[i].caller == (if i == 0 then null else stack[i - 1])
    }

    ghost predicate Linked()
      reads `stack, `innermost
    {
      && innermost == (if stack == [] then null else stack[|stack| - 1])
      && forall i: nat {:trigger InPlace(i)} :: i < |stack| ==> InPlace(i)
    }

    // The objects of `stack` are those of `was`, or new.
    twostate predicate Grown(was: seq<Activation>)
      reads this
    {
      forall i :: 0 <= i < |stack| ==> stack[i] in was || fresh(stack[i])
    }

    ghost function Handlers(): (h: seq<Handler>)
      reads this, stack
      ensures |h| == |stack| && forall i :: 0 <= i < |h| ==> h[i] == stack[i].View()
    {
      seq(|stack|, i requires 0 <= i < |stack| reads this, stack => stack[i].View())
    }

    ghost function View(): State
      reads this, stack
    {
      State(p, Handlers(), sigcount, exited, running)
    }

    constructor ()
      ensures Linked() && View() == INITIAL && stack == []
    {
      p, innermost, sigcount, exited, running := IDLE, null, 0, 0, true;
      stack := [];
    }

    method Exit(status: int)
      modifies `exited, `running
      ensures exited == status && !running
    {
      exited, running := status, false;
    }

    method TimerExpires()
      requires Linked() && running
      modifies this
      ensures Linked() && Grown(old(stack))
      ensures forall code :: View() == Step(old(View()), Tick, code)
    {
      p := Post(p, SIGALRM);
      if CanDeliver(p, SIGALRM) {
        p := Enter(p, SIGALRM, false);
        innermost := new Activation(innermost, |stack|);
        stack := stack + [innermost];
        forall i: nat | i < |stack| ensures InPlace(i) {
          assert i < |stack| - 1 ==> old(InPlace(i));
        }
        assert Handlers() == old(Handlers()) + [AtEntry];
      } else {
        assert Handlers() == old(Handlers());
      }
    }

    // An activation is on the stack only once.
    lemma Distinct()
      requires Linked()
      ensures forall i, j :: 0 <= i < j < |stack| ==> stack[i] != stack[j]
    {
      forall i, j | 0 <= i < j < |stack| ensures stack[i] != stack[j] {
        assert InPlace(i) && InPlace(j);
      }
    }

    // `sigcount++`, and the test of its old value.
    method Count(code: seq<byte>)
      requires Linked() && running && innermost != null && !innermost.counted
      modifies this, innermost
      ensures Linked() && stack == old(stack) && View() == Step(old(View()), Go, code)
    {
      Distinct();
      sigcount := sigcount + 1;
      if sigcount - 1 >= LIMIT {
        Exit(0);
        assert Handlers() == old(Handlers());
      } else {
        innermost.StartCall(0);
        assert Handlers() == old(Handlers()[|stack| - 1 := InTest(0, FIRST)]);
      }
    }

    // One instruction of the generated code; after its `ret`, the next call, or the return of the handler.
    method Continue(code: seq<byte>)
      requires Linked() && running && innermost != null && innermost.counted
      modifies this, innermost
      ensures Linked() && stack <= old(stack) && View() == Step(old(View()), Go, code)
    {
      Distinct();
      assert InPlace(|stack| - 1);
      var cpu' := Execute(code, innermost.cpu);
      match cpu'
      case Fault =>
        Exit(139);
        assert Handlers() == old(Handlers());
      case Running(_, _, _) =>
        innermost.cpu := cpu';
        assert Handlers() == old(Handlers()[|stack| - 1 := InTest(innermost.call, cpu')]);
      case Returned(_) =>
        if innermost.call + 1 < CALLS {
          innermost.StartCall(innermost.call + 1);
          assert Handlers() == old(Handlers()[|stack| - 1 := InTest(innermost.call + 1, FIRST)]);
        } else {
          Leave();
        }
    }

    method Leave()
      requires Linked() && running && innermost != null
      modifies this
      ensures Linked() && stack <= old(stack)
      ensures View() == if old(p.frames) == [] then old(View())
                        else old(View()).(p := Return(old(p)), handlers := old(Handlers())[..|old(stack)| - 1])
    {
      ghost var last := |stack| - 1;
      assert InPlace(last);
      if p.frames != [] {
        p := Return(p);
        innermost := innermost.caller;
        stack := stack[..last];
        forall i: nat | i < last ensures InPlace(i) {
          assert old(InPlace(i));
        }
        assert Handlers() == old(Handlers())[..last];
      } else {
        assert Handlers() == old(Handlers());
      }
    }

    method Happen(e: Event, code: seq<byte>)
      requires Linked()
      modifies this, stack
      ensures Linked() && Grown(old(stack))
      ensures View() == Step(old(View()), e, code)
    {
      if !running { return; }
      match e
      case Tick => TimerExpires();
      case Wake =>
        if innermost == null {
          Exit(1);
          assert Handlers() == old(Handlers());
        }
      case Go =>
        if innermost != null {
          if innermost.counted {
            Continue(code);
          } else {
            Count(code);
          }
        }
    }

    method Play(events: seq<Event>, code: seq<byte>, ghost n: nat)
      requires Linked() && Valid(View(), code) && Generated(code, NESTED, n) && n >= 1
      modifies this, stack
      ensures View() == Run(old(View()), events, code) && Valid(View(), code)
      ensures StillLive(old(View()), View())
    {
      ghost var start := View();
      for i := 0 to |events|
        invariant Linked() && Grown(old(stack))
        invariant View() == Run(start, events[..i], code)
      {
        RunAppend(start, events[..i], [events[i]], code);
        assert events[..i + 1] == events[..i] + [events[i]];
        assert [events[i]][1..] == [];
        Happen(events[i], code);
      }
      assert events[..|events|] == events;
      RunKeeps(start, events, code, n);
    }
  }
}
