/** smc-signals.cpp: self-modifying code tests, nested by signals that may land before any of their statements. */
module SmcSignals {
  import opened Words
  import opened Machine
  import opened Signals

  const SIGNALS: set<nat> := {2, 10, 11, 12, 63}  // SIGINT, SIGUSR1, SIGSEGV, SIGUSR2 and 63

  datatype Instruction =
    | CountSignal
    | Map
    | Store(offset: nat, value: byte)
    | Call  // the `mov` of the generated function
    | Ret(i: nat)  // its `ret`, and keeping the value as result `i`
    | Protect(writable: bool)
    | Check
    | CountTest
    | Loop
    | Unmap
    | HandlerReturn

  // sig_handler, with smc_test in line.
  function Statement(pc: nat): Instruction {
    match pc
    case 0 => CountSignal
    case 1 => Map
    case 2 => Store(0, 0xB8)
    case 3 => Store(1, 0xAA)
    case 4 => Store(2, 0xBB)
    case 5 => Store(3, 0xCC)
    case 6 => Store(4, 0xDD)
    case 7 => Store(5, 0xC3)
    case 8 => Call
    case 9 => Ret(1)
    case 10 => Store(3, 0xFE)
    case 11 => Call
    case 12 => Ret(2)
    case 13 => Protect(false)
    case 14 => Protect(true)
    case 15 => Store(3, 0xF3)
    case 16 => Protect(false)
    case 17 => Call
    case 18 => Ret(3)
    case 19 => Protect(true)
    case 20 => Store(3, 0xF1)
    case 21 => Call
    case 22 => Ret(4)
    case 23 => Check
    case 24 => CountTest
    case 25 => Loop
    case 26 => Unmap
    case _ => HandlerReturn
  }

  const LOOP_START := 2
  const ROUNDS := 10

  datatype Page = Page(code: seq<byte>, writable: bool)

  /** A live handler: where it is, its page, and its local variables. */
  datatype Handler = Handler(pc: nat, page: nat, round: nat, eax: nat, results: map<nat, nat>)

  datatype State = State(
    p: Process,
    handlers: seq<Handler>,
    memory: map<nat, Page>,
    failed: bool,
    faulted: bool,  // a store or a call went wrong
    count: nat,
    sigcount: nat,
    finished: nat)  // calls of smc_test that have returned

  const INITIAL := State(IDLE, [], map[], false, false, 0, 0, 0)

  /** What happens next: a signal is delivered, or the innermost handler goes on (with the page mmap picks). */
  datatype Event = Deliver(signal: nat) | Go(free: nat)

  function BlankPage(): Page { Page(seq(4096, _ => 0), true) }

  function Step(s: State, e: Event): State {
    match e
    case Deliver(signal) =>
      if signal in SIGNALS && signal !in s.p.mask then
        s.(p := Enter(Post(s.p, signal), signal, true), handlers := s.handlers + [Handler(0, 0, 0, 0, map[])])
      else s
    case Go(free) =>
      if s.handlers == [] then s
      else
        var h := s.handlers[|s.handlers| - 1];
        Perform(s, h, Statement(h.pc), free)
  }

  // The innermost handler replaced by `h`.
  function With(s: State, h: Handler): State
    requires s.handlers != []
  {
    s.(handlers := s.handlers[|s.handlers| - 1 := h])
  }

  function Perform(s: State, h: Handler, i: Instruction, free: nat): State
    requires s.handlers != []
  {
    var next := With(s, h.(pc := h.pc + 1));
    match i
    case CountSignal => next.(sigcount := s.sigcount + 1)
    case Map => MapPage(s, h, free)
    case Store(offset, value) => StoreByte(s, h, offset, value)
    case Call => CallCode(s, h)
    case Ret(r) => ReturnFromCode(s, h, r)
    case Protect(writable) => SetWritable(s, h, writable)
    case Check => next.(failed := s.failed || !ResultsRight(h.results))
    case CountTest => next.(count := s.count + 1)
    case Loop =>
      With(s, h.(round := h.round + 1, pc := if h.round + 1 < ROUNDS then LOOP_START else h.pc + 1))
    case Unmap => next.(memory := s.memory - {h.page})
    case HandlerReturn =>
      if s.p.frames == [] then s.(faulted := true)
      else s.(p := Return(s.p), handlers := s.handlers[..|s.handlers| - 1], finished := s.finished + 1)
  }

  function MapPage(s: State, h: Handler, free: nat): State
    requires s.handlers != []
  {
    if free in s.memory then s
    else With(s, h.(pc := h.pc + 1, page := free)).(memory := s.memory[free := BlankPage()])
  }

  function StoreByte(s: State, h: Handler, offset: nat, value: byte): State
    requires s.handlers != []
  {
    if h.page in s.memory && s.memory[h.page].writable && offset < |s.memory[h.page].code| then
      var page := s.memory[h.page];
      With(s, h.(pc := h.pc + 1)).(memory := s.memory[h.page := page.(code := page.code[offset := value])])
    else s.(faulted := true)
  }

  function CallCode(s: State, h: Handler): State
    requires s.handlers != []
  {
    if h.page in s.memory then
      var cpu := Execute(s.memory[h.page].code, Running(0, h.eax, false));
      if cpu.Running? && cpu.pc == 5 then With(s, h.(pc := h.pc + 1, eax := cpu.eax)) else s.(faulted := true)
    else s.(faulted := true)
  }

  function ReturnFromCode(s: State, h: Handler, result: nat): State
    requires s.handlers != []
  {
    if h.page in s.memory && Execute(s.memory[h.page].code, Running(5, h.eax, false)) == Returned(h.eax) then
      With(s, h.(pc := h.pc + 1, results := h.results[result := h.eax]))
    else s.(faulted := true)
  }

  function SetWritable(s: State, h: Handler, writable: bool): State
    requires s.handlers != []
  {
    if h.page in s.memory then
      With(s, h.(pc := h.pc + 1)).(memory := s.memory[h.page := s.memory[h.page].(writable := writable)])
    else s.(faulted := true)
  }

  predicate ResultsRight(r: map<nat, nat>) {
    && 1 in r && r[1] == 0xDDCC_BBAA && 2 in r && r[2] == 0xDDFE_BBAA
    && 3 in r && r[3] == 0xDDF3_BBAA && 4 in r && r[4] == 0xDDF1_BBAA
  }

  function Run(s: State, events: seq<Event>): State
    decreases |events|
  {
    if events == [] then s else Run(Step(s, events[0]), events[1..])
  }

  // The byte the current round's code has at offset 3 before the instruction at `pc`.
  function Patch(pc: nat): byte {
    if pc <= 10 then 0xCC else if pc <= 15 then 0xFE else if pc <= 20 then 0xF3 else 0xF1
  }

  function ValueOf(patch: byte): nat { 0xDD00_BBAA + 0x1_0000 * patch }

  predicate Mapped(h: Handler) { 2 <= h.pc <= 26 }

  // The page as it must be before the instruction at `pc`.
  predicate PageRight(pc: nat, page: Page) {
    var c := page.code;
    && |c| == 4096
    && (pc > 2 ==> c[0] == 0xB8) && (pc > 3 ==> c[1] == 0xAA) && (pc > 4 ==> c[2] == 0xBB)
    && (pc > 5 ==> c[3] == Patch(pc)) && (pc > 6 ==> c[4] == 0xDD) && (pc > 7 ==> c[5] == 0xC3)
    && page.writable == !(pc == 14 || 17 <= pc <= 19)
  }

  predicate LocalsRight(h: Handler) {
    var r := h.results;
    && h.pc <= 27
    && (if h.pc < 2 then h.round == 0 else if h.pc < 26 then h.round < ROUNDS else h.round == ROUNDS)
    && (h.pc in {9, 12, 18, 22} ==> h.eax == ValueOf(Patch(h.pc)))
    && (10 <= h.pc <= 23 ==> 1 in r && r[1] == ValueOf(0xCC))
    && (13 <= h.pc <= 23 ==> 2 in r && r[2] == ValueOf(0xFE))
    && (19 <= h.pc <= 23 ==> 3 in r && r[3] == ValueOf(0xF3))
    && (h.pc == 23 ==> 4 in r && r[4] == ValueOf(0xF1))
  }

  predicate HandlerRight(h: Handler, memory: map<nat, Page>) {
    LocalsRight(h) && (Mapped(h) ==> h.page in memory && PageRight(h.pc, memory[h.page]))
  }

  // How many of its tests a handler has counted.
  function Tests(h: Handler): nat { if h.pc == 25 then h.round + 1 else h.round }

  function TestsOf(handlers: seq<Handler>): nat {
    if handlers == [] then 0 else TestsOf(handlers[..|handlers| - 1]) + Tests(handlers[|handlers| - 1])
  }

  function Counted(handlers: seq<Handler>): nat {
    if handlers == [] then 0
    else Counted(handlers[..|handlers| - 1]) + if handlers[|handlers| - 1].pc > 0 then 1 else 0
  }

  ghost predicate Valid(s: State) {
    && !s.failed && !s.faulted
    && Deferring(s.p) && |s.p.frames| == |s.handlers|
    && (forall i :: 0 <= i < |s.p.frames| ==> s.p.frames[i].signal in SIGNALS)
    && (forall i {:trigger HandlerRight(s.handlers[i], s.memory)} ::
          0 <= i < |s.handlers| ==> HandlerRight(s.handlers[i], s.memory))
    && PagesDisjoint(s.handlers)
    && s.count == ROUNDS * s.finished + TestsOf(s.handlers)
    && s.sigcount == s.finished + Counted(s.handlers)
  }

  // No two live handlers share a page.
  ghost predicate PagesDisjoint(handlers: seq<Handler>) {
    forall i, j :: 0 <= i < j < |handlers| && Mapped(handlers[i]) && Mapped(handlers[j]) ==>
      handlers[i].page != handlers[j].page
  }

  function Top(s: State): Handler
    requires s.handlers != []
  {
    s.handlers[|s.handlers| - 1]
  }

  // The innermost handler goes on: it may change its own page, or take one that was free.
  ghost predicate OwnPageOnly(s: State, h: Handler, memory: map<nat, Page>)
    requires s.handlers != []
  {
    var was := Top(s);
    && (forall q :: q in s.memory && !(Mapped(was) && q == was.page) ==> q in memory && memory[q] == s.memory[q])
    && (Mapped(h) ==> (Mapped(was) && h.page == was.page) || h.page !in s.memory)
  }

  lemma GoOn(s: State, h: Handler, s': State)
    requires Valid(s) && s.handlers != [] && HandlerRight(h, s'.memory) && OwnPageOnly(s, h, s'.memory)
    requires s'.p == s.p && s'.handlers == s.handlers[|s.handlers| - 1 := h] && s'.finished == s.finished
    requires !s'.failed && !s'.faulted
    requires s'.count == s.count + Tests(h) - Tests(Top(s))
    requires s'.sigcount == s.sigcount + (if h.pc > 0 then 1 else 0) - (if Top(s).pc > 0 then 1 else 0)
    ensures Valid(s')
  {
    var n := |s.handlers| - 1;
    assert s'.handlers[..n] == s.handlers[..n];
    forall i | 0 <= i < |s'.handlers| ensures HandlerRight(s'.handlers[i], s'.memory) {
      assert HandlerRight(s.handlers[i], s.memory);
    }
    forall i, j | 0 <= i < j < |s'.handlers| && Mapped(s'.handlers[i]) && Mapped(s'.handlers[j])
      ensures s'.handlers[i].page != s'.handlers[j].page
    {
      assert HandlerRight(s.handlers[i], s.memory);
    }
  }

  lemma DeliverKeeps(s: State, signal: nat)
    requires Valid(s)
    ensures Valid(Step(s, Deliver(signal)))
  {
    var s' := Step(s, Deliver(signal));
    if s' != s {
      PostDeferring(s.p, signal);
      EnterDeferring(Post(s.p, signal), signal);
      var n := |s.handlers|;
      assert s'.handlers[..n] == s.handlers;
      forall i | 0 <= i < |s'.handlers| ensures HandlerRight(s'.handlers[i], s'.memory) {
        assert i < n ==> HandlerRight(s.handlers[i], s.memory);
      }
    }
  }

  lemma StoreKeeps(s: State, free: nat)
    requires Valid(s) && s.handlers != [] && Statement(Top(s).pc).Store?
    ensures Valid(Step(s, Go(free)))
  {
    var h := Top(s);
    assert HandlerRight(h, s.memory);
    var s' := Step(s, Go(free));
    GoOn(s, h.(pc := h.pc + 1), s');
  }

  // Running the page's code: what `mov` puts in eax is what the bytes say.
  lemma CodeValue(code: seq<byte>, patch: byte, eax: nat)
    requires |code| == 4096 && code[0] == 0xB8 && code[1] == 0xAA && code[2] == 0xBB
    requires code[3] == patch && code[4] == 0xDD && code[5] == 0xC3
    ensures Execute(code, Running(0, eax, false)) == Running(5, ValueOf(patch), false)
    ensures Execute(code, Running(5, eax, false)) == Returned(eax)
  {
    var s := code[1..5];
    assert s == [0xAA, 0xBB, patch, 0xDD];
    assert s[1..] == [0xBB, patch, 0xDD];
    assert s[1..][1..] == [patch, 0xDD];
    assert s[1..][1..][1..] == [0xDD];
    assert FromLittleEndian([0xDD]) == 0xDD + 256 * FromLittleEndian([]);
    assert FromLittleEndian([patch, 0xDD]) == patch + 256 * 0xDD;
    assert FromLittleEndian([0xBB, patch, 0xDD]) == 0xBB + 256 * FromLittleEndian([patch, 0xDD]);
    assert FromLittleEndian(s) == 0xAA + 256 * FromLittleEndian([0xBB, patch, 0xDD]);
  }

  lemma CallKeeps(s: State, free: nat)
    requires Valid(s) && s.handlers != [] && (Statement(Top(s).pc).Call? || Statement(Top(s).pc).Ret?)
    ensures Valid(Step(s, Go(free)))
  {
    var h := Top(s);
    assert HandlerRight(h, s.memory);
    CodeValue(s.memory[h.page].code, Patch(h.pc), h.eax);
    var s' := Step(s, Go(free));
    GoOn(s, Top(s'), s');
  }

  lemma ReturnKeeps(s: State, free: nat)
    requires Valid(s) && s.handlers != [] && Statement(Top(s).pc).HandlerReturn?
    ensures Valid(Step(s, Go(free)))
  {
    var h := Top(s);
    var n := |s.handlers| - 1;
    assert HandlerRight(h, s.memory);
    var s' := Step(s, Go(free));
    ReturnDeferring(s.p);
    forall i | 0 <= i < |s'.handlers| ensures HandlerRight(s'.handlers[i], s'.memory) {
      assert HandlerRight(s.handlers[i], s.memory);
    }
    assert Tests(h) == ROUNDS;
  }

  lemma PageKeeps(s: State, free: nat)
    requires Valid(s) && s.handlers != []
    requires var i := Statement(Top(s).pc); i.Map? || i.Protect? || i.Unmap?
    ensures Valid(Step(s, Go(free)))
  {
    var h := Top(s);
    assert HandlerRight(h, s.memory);
    var s' := Step(s, Go(free));
    if s' != s {
      GoOn(s, Top(s'), s');
    }
  }

  lemma AccountKeeps(s: State, free: nat)
    requires Valid(s) && s.handlers != []
    requires var i := Statement(Top(s).pc); i.CountSignal? || i.Check? || i.CountTest? || i.Loop?
    ensures Valid(Step(s, Go(free)))
  {
    var h := Top(s);
    assert HandlerRight(h, s.memory);
    var s' := Step(s, Go(free));
    GoOn(s, Top(s'), s');
  }

  lemma StepKeeps(s: State, e: Event)
    requires Valid(s)
    ensures Valid(Step(s, e))
  {
    match e
    case Deliver(signal) => DeliverKeeps(s, signal);
    case Go(free) =>
      if s.handlers != [] {
        match Statement(Top(s).pc)
        case Store(_, _) => StoreKeeps(s, free);
        case Call => CallKeeps(s, free);
        case Ret(_) => CallKeeps(s, free);
        case HandlerReturn => ReturnKeeps(s, free);
        case Map => PageKeeps(s, free);
        case Protect(_) => PageKeeps(s, free);
        case Unmap => PageKeeps(s, free);
        case _ => AccountKeeps(s, free);
      }
  }

  lemma {:induction false} RunKeeps(s: State, events: seq<Event>)
    requires Valid(s)
    ensures Valid(Run(s, events))
    decreases |events|
  {
    if events != [] {
      StepKeeps(s, events[0]);
      RunKeeps(Step(s, events[0]), events[1..]);
    }
  }

  // The test passes so far, live handlers are for distinct signals (so at most five) and have their own
  // pages, and `count` is ten per finished test plus what the live ones have done.
  ghost predicate Safe(s: State) {
    && !s.failed && !s.faulted && |s.handlers| == |s.p.frames| <= 5
    && (forall i, j :: 0 <= i < j < |s.p.frames| ==> s.p.frames[i].signal != s.p.frames[j].signal)
    && PagesDisjoint(s.handlers)
    && s.count == 10 * s.finished + TestsOf(s.handlers)
    && s.sigcount == s.finished + Counted(s.handlers)
  }

  lemma ValidIsSafe(s: State)
    requires Valid(s)
    ensures Safe(s)
  {
    forall i, j | 0 <= i < j < |s.p.frames| ensures s.p.frames[i].signal != s.p.frames[j].signal {
      LiveSignalsDistinct(s.p, i, j);
    }
    LiveHandlersBounded(s.p, SIGNALS);
    FiveSignals();
  }

  lemma FiveSignals()
    ensures |SIGNALS| == 5
  {
    assert |{2, 10, 11, 12, 63}| == 5;
  }

  lemma InitialValid()
    ensures Valid(INITIAL)
  {}

  // Whatever signals land, and wherever.
  lemma EveryRun(events: seq<Event>)
    ensures Safe(Run(INITIAL, events))
  {
    InitialValid();
    var s := INITIAL;
    RunKeeps(s, events);
    ValidIsSafe(Run(s, events));
  }

  lemma {:induction false} RunSnoc(s: State, events: seq<Event>, e: Event)
    ensures Run(s, events + [e]) == Step(Run(s, events), e)
    decreases |events|
  {
    if events == [] {
      RunFirst(s, [e]);
      assert [] + [e] == [e] && [e][1..] == [];
    } else {
      assert (events + [e])[1..] == events[1..] + [e];
      RunFirst(s, events);
      RunFirst(s, events + [e]);
      RunSnoc(Step(s, events[0]), events[1..], e);
    }
  }

  lemma RunFirst(s: State, events: seq<Event>)
    requires events != []
    ensures Run(s, events) == Run(Step(s, events[0]), events[1..])
  {}

  // The check looks at the four results, and nothing else; it is never undone.
  lemma CheckDetects(s: State, free: nat)
    requires s.handlers != [] && Top(s).pc == 23
    ensures var r := Top(s).results;
            Step(s, Go(free)).failed <==>
              s.failed || !(1 in r && r[1] == 0xDDCC_BBAA && 2 in r && r[2] == 0xDDFE_BBAA
                            && 3 in r && r[3] == 0xDDF3_BBAA && 4 in r && r[4] == 0xDDF1_BBAA)
  {}

  // A store goes wrong just if its page is not mapped, or not writable.
  lemma StoreFaultsIff(s: State, free: nat)
    requires s.handlers != [] && Statement(Top(s).pc).Store? && !s.faulted
    requires Top(s).page in s.memory ==> |s.memory[Top(s).page].code| == 4096
    ensures Step(s, Go(free)).faulted <==> !(Top(s).page in s.memory && s.memory[Top(s).page].writable)
  {}

  function Gos(k: nat, free: nat): seq<Event> {
    if k == 0 then [] else [Go(free)] + Gos(k - 1, free)
  }

  lemma RunGo(s: State, k: nat, free: nat)
    ensures Run(s, Gos(k + 1, free)) == Run(Step(s, Go(free)), Gos(k, free))
  {
    assert Gos(k + 1, free)[1..] == Gos(k, free);
  }

  // How many statements a handler still has to go through.
  function Left(h: Handler): int {
    if h.pc < 2 then 244 - h.pc
    else if h.pc < 26 then (10 - h.round) * 24 - (h.pc - 2) + 2
    else 28 - h.pc
  }

  // What is mapped apart from the page of the innermost handler.
  function OtherPages(s: State): map<nat, Page>
    requires s.handlers != []
  {
    if Mapped(Top(s)) then s.memory - {Top(s).page} else s.memory
  }

  // The innermost handler has come one statement nearer to its return, and only its own page has changed.
  ghost predicate Advanced(s: State, s': State)
    requires s.handlers != []
  {
    && s'.handlers != [] && s'.handlers[..|s'.handlers| - 1] == s.handlers[..|s.handlers| - 1]
    && s'.p == s.p && s'.finished == s.finished && OtherPages(s') == OtherPages(s)
    && Left(Top(s')) == Left(Top(s)) - 1 && (Top(s').pc < 2 ==> s'.memory == s.memory)
  }

  lemma Advances(s: State, free: nat)
    requires Valid(s) && s.handlers != [] && Top(s).pc < 27
    requires Top(s).pc < 2 ==> free !in s.memory
    ensures Advanced(s, Step(s, Go(free)))
  {
    var i := Statement(Top(s).pc);
    if i.Store? || i.Protect? {
      AdvancesInPage(s, free);
    } else if i.Call? || i.Ret? {
      AdvancesInCode(s, free);
    } else {
      AdvancesOtherwise(s, free);
    }
  }

  lemma AdvancesInPage(s: State, free: nat)
    requires Valid(s) && s.handlers != [] && (Statement(Top(s).pc).Store? || Statement(Top(s).pc).Protect?)
    ensures Advanced(s, Step(s, Go(free)))
  {
    assert HandlerRight(Top(s), s.memory);
  }

  lemma AdvancesInCode(s: State, free: nat)
    requires Valid(s) && s.handlers != [] && (Statement(Top(s).pc).Call? || Statement(Top(s).pc).Ret?)
    ensures Advanced(s, Step(s, Go(free)))
  {
    var h := Top(s);
    assert HandlerRight(h, s.memory);
    CodeValue(s.memory[h.page].code, Patch(h.pc), h.eax);
  }

  lemma AdvancesOtherwise(s: State, free: nat)
    requires Valid(s) && s.handlers != [] && (Top(s).pc < 2 ==> free !in s.memory)
    requires var i := Statement(Top(s).pc);
             i.CountSignal? || i.Map? || i.Check? || i.CountTest? || i.Loop? || i.Unmap?
    ensures Advanced(s, Step(s, Go(free)))
  {
    assert HandlerRight(Top(s), s.memory);
  }

  lemma {:induction false} Finishes(s: State, free: nat)
    requires Valid(s) && s.handlers != [] && (Top(s).pc < 2 ==> free !in s.memory)
    ensures Left(Top(s)) > 0
    ensures var s' := Run(s, Gos(Left(Top(s)), free));
            && Valid(s') && s'.p == Return(s.p) && s'.handlers == s.handlers[..|s.handlers| - 1]
            && s'.memory == OtherPages(s) && s'.finished == s.finished + 1
    decreases Left(Top(s))
  {
    assert HandlerRight(Top(s), s.memory);
    var s' := Step(s, Go(free));
    StepKeeps(s, Go(free));
    RunGo(s, Left(Top(s)) - 1, free);
    if Top(s).pc < 27 {
      Advances(s, free);
      Finishes(s', free);
    }
  }

  // Wherever a signal lands that can be delivered: given a page, its handler runs ten tests, counts them, and
  // leaves everything else as it found it.
  lemma HandlerFinishes(s: State, signal: nat, free: nat)
    requires Valid(s) && signal in SIGNALS && signal !in s.p.mask && free !in s.memory
    ensures var s' := Run(s, [Deliver(signal)] + Gos(244, free));
            && s'.p == s.p.(pending := s.p.pending - {signal})
            && s'.handlers == s.handlers && s'.memory == s.memory
            && s'.finished == s.finished + 1 && s'.count == s.count + 10 && s'.sigcount == s.sigcount + 1
            && !s'.failed && !s'.faulted
  {
    var s1 := Step(s, Deliver(signal));
    StepKeeps(s, Deliver(signal));
    assert ([Deliver(signal)] + Gos(244, free))[1..] == Gos(244, free);
    Finishes(s1, free);
    EnterReturn(Post(s.p, signal), signal, true);
    assert s1.handlers[..|s.handlers|] == s.handlers;
  }

  /** A mapped page of code, whose bytes are written in place. */
  class CodePage {
    ghost const address: nat
    var code: seq<byte>
    var writable: bool

    constructor (ghost address: nat)
      ensures View() == BlankPage() && this.address == address
    {
      this.address, code, writable := address, BlankPage().code, true;
    }

    ghost function View(): Page
      reads this
    {
      Page(code, writable)
    }
  }

  /** The process: its globals, its pages and its live handlers, updated in place. */
  class Program {
    var p: Process
    var handlers: seq<Handler>
    var pages: map<nat, CodePage>
    var failed: bool
    var faulted: bool
    var count: nat
    var sigcount: nat
    ghost var finished: nat

    // Every address has a page of its own.
    ghost predicate Apart()
      reads `pages
    {
      forall a :: a in pages ==> pages[a].address == a
    }

    ghost function Memory(): (m: map<nat, Page>)
      reads `pages, pages.Values
    {
      map a | a in pages :: pages[a].View()
    }

    ghost function View(): State
      reads this, pages.Values
    {
      State(p, handlers, Memory(), failed, faulted, count, sigcount, finished)
    }

    function Innermost(): Handler
      requires handlers != []
      reads `handlers
    {
      handlers[|handlers| - 1]
    }

    constructor ()
      ensures Apart() && View() == INITIAL && pages == map[]
    {
      p, handlers, pages := IDLE, [], map[];
      failed, faulted, count, sigcount, finished := false, false, 0, 0, 0;
    }

    method Signal(signal: nat)
      modifies `p, `handlers
      ensures View() == Step(old(View()), Deliver(signal))
    {
      if signal in SIGNALS && signal !in p.mask {
        p := Enter(Post(p, signal), signal, true);
        handlers := handlers + [Handler(0, 0, 0, 0, map[])];
      }
      assert Memory() == old(Memory());
    }

    method Map(h: Handler, free: nat)
      requires Apart() && handlers != [] && h == Innermost()
      modifies `pages, `handlers
      ensures Apart() && fresh(pages.Values - old(pages.Values))
      ensures View() == MapPage(old(View()), h, free)
    {
      if free !in pages {
        var page := new CodePage(free);
        pages := pages[free := page];
        handlers := handlers[|handlers| - 1 := h.(pc := h.pc + 1, page := free)];
        assert Memory() == old(Memory())[free := BlankPage()];
      } else {
        assert Memory() == old(Memory());
      }
    }

    // A store to the handler's page.
    method Write(h: Handler, offset: nat, value: byte)
      requires Apart() && handlers != [] && h == Innermost()
      modifies `handlers, `faulted, pages.Values
      ensures View() == StoreByte(old(View()), h, offset, value)
    {
      if h.page in pages && pages[h.page].writable && offset < |pages[h.page].code| {
        var page := pages[h.page];
        page.code := page.code[offset := value];
        handlers := handlers[|handlers| - 1 := h.(pc := h.pc + 1)];
        assert Memory() == old(Memory())[h.page := page.View()];
      } else {
        faulted := true;
        assert Memory() == old(Memory());
      }
    }

    // mprotect.
    method Protect(h: Handler, writable: bool)
      requires Apart() && handlers != [] && h == Innermost()
      modifies `handlers, `faulted, pages.Values
      ensures View() == SetWritable(old(View()), h, writable)
    {
      if h.page in pages {
        var page := pages[h.page];
        page.writable := writable;
        handlers := handlers[|handlers| - 1 := h.(pc := h.pc + 1)];
        assert Memory() == old(Memory())[h.page := page.View()];
      } else {
        faulted := true;
        assert Memory() == old(Memory());
      }
    }

    method Unmap(h: Handler)
      requires Apart() && handlers != [] && h == Innermost()
      modifies `pages, `handlers
      ensures Apart() && pages.Values <= old(pages.Values)
      ensures View() == old(With(View(), h.(pc := h.pc + 1)).(memory := View().memory - {h.page}))
    {
      pages := pages - {h.page};
      handlers := handlers[|handlers| - 1 := h.(pc := h.pc + 1)];
      assert Memory() == old(Memory()) - {h.page};
    }

    // Runs the code in the handler's page: its first instruction, or its `ret`.
    method RunCode(h: Handler, i: Instruction)
      requires handlers != [] && h == Innermost() && (i.Call? || i.Ret?)
      modifies `handlers, `faulted
      ensures View() == old(if i.Call? then CallCode(View(), h) else ReturnFromCode(View(), h, i.i))
    {
      var code := if h.page in pages then pages[h.page].code else [];
      var cpu := Execute(code, Running(if i.Call? then 0 else 5, h.eax, false));
      if h.page in pages && i.Call? && cpu.Running? && cpu.pc == 5 {
        handlers := handlers[|handlers| - 1 := h.(pc := h.pc + 1, eax := cpu.eax)];
      } else if h.page in pages && i.Ret? && cpu == Returned(h.eax) {
        handlers := handlers[|handlers| - 1 := h.(pc := h.pc + 1, results := h.results[i.i := h.eax])];
      } else {
        faulted := true;
      }
      assert Memory() == old(Memory());
    }

    // The statements that touch no page.
    method Account(h: Handler, i: Instruction, ghost free: nat)
      requires handlers != [] && h == Innermost() && (i.CountSignal? || i.Check? || i.CountTest? || i.Loop?)
      modifies `handlers, `failed, `count, `sigcount
      ensures View() == Perform(old(View()), h, i, free)
    {
      var next := h.(pc := h.pc + 1);
      match i {
        case CountSignal => sigcount := sigcount + 1;
        case Check => if !ResultsRight(h.results) { failed := true; }
        case CountTest => count := count + 1;
        case Loop =>
          var round := h.round + 1;
          next := h.(round := round, pc := if round < ROUNDS then LOOP_START else h.pc + 1);
      }
      handlers := handlers[|handlers| - 1 := next];
      assert Memory() == old(Memory());
    }

    method Leave(h: Handler, ghost free: nat)
      requires handlers != [] && h == Innermost()
      modifies `p, `handlers, `faulted, `finished
      ensures View() == Perform(old(View()), h, HandlerReturn, free)
    {
      if p.frames == [] {
        faulted := true;
      } else {
        p := Return(p);
        handlers := handlers[..|handlers| - 1];
        finished := finished + 1;
      }
      assert Memory() == old(Memory());
    }

    // The next statement of the innermost handler.
    method Continue(free: nat)
      requires Apart() && handlers != []
      modifies this, pages.Values
      ensures Apart() && fresh(pages.Values - old(pages.Values))
      ensures View() == Step(old(View()), Go(free))
    {
      var h := Innermost();
      var i := Statement(h.pc);
      match i
      case Map => Map(h, free);
      case Store(offset, value) => Write(h, offset, value);
      case Call => RunCode(h, i);
      case Ret(_) => RunCode(h, i);
      case Protect(writable) => Protect(h, writable);
      case Unmap => Unmap(h);
      case HandlerReturn => Leave(h, free);
      case _ => Account(h, i, free);
    }

    // Any signals, at any points.
    method Play(events: seq<Event>)
      requires Apart() && Valid(View())
      modifies this, pages.Values
      ensures View() == Run(old(View()), events) && Safe(View())
    {
      ghost var start := View();
      for i := 0 to |events|
        invariant Apart() && fresh(pages.Values - old(pages.Values))
        invariant View() == Run(start, events[..i])
      {
        RunSnoc(start, events[..i], events[i]);
        assert events[..i + 1] == events[..i] + [events[i]];
        match events[i]
        case Deliver(signal) => Signal(signal);
        case Go(free) => if handlers != [] { Continue(free); }
      }
      assert events[..|events|] == events;
      RunKeeps(start, events);
      ValidIsSafe(View());
    }
  }
}
