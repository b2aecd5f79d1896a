# Verified models of the FEX assorted guest programs

The repository is a collection of small x86-64 guest programs that exercise an emulator. A handful of them hold real
algorithms and protocols; this project models those in Dafny and proves what they are for. `dafny verify dfyconfig.toml`
checks everything.

**The gap stealer** (`Words`, `Hex`, `Regions`, `Listing`, `Buckets`, `Kernel`, `Stealer`). `StealMemoryRegion` reads
`/proc/self/maps` a buffer at a time, parses it a byte at a time, reserves every gap of an address interval with
`MAP_FIXED` as soon as it is known, and records the reservations in a chain of buckets. `Kernel` is the other side: it
formats its regions lazily, delivers any non-empty part of the text per read, may fail with EAGAIN, resumes at the first
region that ends above the last one shown, and merges a new mapping with its neighbours at will. For every listing in the
format of proc(5), every way of delivering it and every interval, the reservations are exactly the maximal gaps, in
order; no fixed mapping ever replaces another; the part of the listing still unread is never disturbed; and at the end
the interval is fully mapped, exactly if no call to mmap failed.

**The address-space filler** (`Reserve`) takes blocks of halving size until nothing is free, against a kernel that may
place a block anywhere it fits. It ends with no free page and the right total whatever the placement; in each round but
the first no gap is as large as two blocks, and each gap that holds a block gives exactly one; and if blocks are only
placed at the ends of gaps, the number of blocks is a sum of binary digit counts.

**The generated code** (`Congruence`, `Machine`, `CodeGen`). The emitter of `signals-nested` and `signals-nested-2`, and a
machine for the four instructions it emits (MOV B8+rd id, ADD 05 id, Jcc 75 cb and RET C3 in the Intel 64 and IA-32
Architectures Software Developer's Manual, Volume 2). Whether the code returns depends on one gcd. The two programs differ
in immediate byte order only: one returns after 5n + 1 instructions, the other never does, although the comments in both
files name the same values.

**Signals** (`Signals`, `SigTests`, `SmcSignals`, `SignalsNested`, `ContextDemo`) follow section 2.4 (Signal Concepts) of
POSIX.1-2017 XSH: a mask, pending signals, and live handlers that each restore a mask. The interrupted programs are step
machines, one step a statement (or an instruction of generated code), because a signal may land between any two; each has
a class that performs the same steps in place, on pages, stack frames or arrays of its own. Theorems hold for every
schedule of events, and say not only what cannot go wrong but that handlers finish and contexts keep taking turns.

**Copyable functions** (`Trampoline`): any number of copies of a code section, each bound to its own target, in the
address-patched and the relative variant.

Where the code and its own text disagree, the model follows the code:

- `alloc.cpp` declares buckets of 33 words but stores up to word 65. The model's bucket has the intended 66; the stores
  fit the declared size exactly if the listing leaves at most 16 gaps.
- `alloc.cpp` never writes the terminator of an empty list, nor the link of an exactly full last bucket. The model
  initialises both; `Walk` tells for which lists a reader would depend on that.
- `signals-nested.cpp` comments its immediates as 0xFFFFFFFE and 1. The bytes decode to 0xFEFFFFFF and 0x01000000.
- `context-demo.c` says that the handler masks signals for the scheduler, but gives the scheduler an empty mask. The
  mask is a parameter: the nested-signal exit is unreachable, and all of the invariant holds, exactly if it blocks
  SIGALRM; that the signal stack is never rebuilt while in use, and that handlers uncount what they counted, holds
  exactly if it does or there is only one context. With the empty mask the same results hold for every run in which no
  signal is delivered to the scheduler.

## Model

| member | source | states |
|---|---|---|
| Hex.AccumulateIsShiftOr | address-space-stealing/alloc.cpp:118-135 | for every 64-bit word and every hex digit, one accumulation step is the value of shifting the word left by four bits and or-ing the digit in |
| Hex.LowerCaseDigits | address-space-stealing/alloc.cpp:123 | the digits are 0 to 9 and a to f, each worth its place |
| Words.WordSizes | address-space-stealing/alloc.cpp:40-41 | an `uintptr_t` has eight bytes, and a 32-bit immediate four |
| Hex.PrintRoundTrip | address-space-stealing/alloc.cpp:118-135 | every 64-bit value printed in hex, at any zero padding, is what the accumulation recovers |
| Listing.RunLine | address-space-stealing/alloc.cpp:88-136 | a whole line recovers both addresses, reserves the gap in front, and leaves the accumulators ready for the next |
| Listing.RunText | address-space-stealing/alloc.cpp:88-136 | the same across any number of lines, from any earlier region end |
| Listing.RunExtends | address-space-stealing/alloc.cpp:114-116 | reading on never takes back a reservation |
| Listing.ParseGivesGaps | address-space-stealing/alloc.cpp:57-136 | the one-pass parse of a listing followed by end of file reserves exactly its gaps, and ends between lines |
| Regions.GapsPartition | address-space-stealing/alloc.cpp:99-117 | an address of the interval is in a region or in a gap, never both, and gaps do not leave the interval |
| Regions.GapsSeparated | address-space-stealing/alloc.cpp:99-117 | gaps are non-empty, ascending, and any two have a region in between |
| Regions.GapsAreMaximal | address-space-stealing/alloc.cpp:99-117 | a range is among the gaps just if it is a maximal free range of the interval |
| Regions.GapsConserveBytes | address-space-stealing/alloc.cpp:60-108 | gap bytes and covered bytes add up to the interval |
| Regions.GapsAligned | address-space-stealing/alloc.cpp:107-108 | between page-aligned regions all reservations are page-aligned, so `MAP_FIXED` accepts them |
| Buckets.MemoryRegionBucket.Put | address-space-stealing/alloc.cpp:114-116 | appends one pair and moves the zero terminator behind it; all other words are as before |
| Buckets.RegionList.constructor | address-space-stealing/alloc.cpp:32-34 | one empty, terminated bucket, which the program has not stored to |
| Buckets.RegionList.LinkBucket | address-space-stealing/alloc.cpp:110-113 | a full chain gets one more, empty bucket; nothing stored is lost |
| Buckets.RegionList.Add | address-space-stealing/alloc.cpp:110-116 | the recorded sequence grows by exactly the new pair; every bucket but the last holds 32 |
| Buckets.RegionList.Walk | address-space-stealing/alloc.cpp:16-19 | walking from the root finds a prefix of the recorded pairs, and all of them just if none begins at zero; every word it then reads has been stored to exactly if there are pairs and their number is no multiple of 32 |
| Buckets.RegionList.DeclaredBucketHoldsSixteen | address-space-stealing/alloc.cpp:16-19 | the stores made fit the intended bucket; they fit the declared one exactly if there are at most 16 pairs |
| Kernel.Kernel.Read | address-space-stealing/alloc.cpp:50-52 | EAGAIN finitely often, otherwise the next characters of the listing; 0 only once all of it is delivered |
| Kernel.Kernel.MapFixed | address-space-stealing/alloc.cpp:107-108 | if it succeeds, exactly the range becomes mapped; regions further up are untouched, and a replaced mapping is noticed |
| Kernel.MappedMeaning | address-space-stealing/alloc.cpp:107-108 | this holds whichever neighbours the new mapping is merged with |
| Kernel.FormatStep | address-space-stealing/alloc.cpp:51 | showing the next region moves it from the unread part to the text |
| Stealer.ReservedSoFar | address-space-stealing/alloc.cpp:95-121 | after any part of the text shown, the reservations are the first gaps of the whole space and lie below the last region shown |
| Stealer.NextGapIsFree | address-space-stealing/alloc.cpp:104-108 | the next reservation meets no original region and no earlier reservation |
| Stealer.MapStep | address-space-stealing/alloc.cpp:107-108 | so it replaces no mapping, and the space stays the original regions plus the reservations that succeeded |
| Stealer.UnreadUnchanged | address-space-stealing/alloc.cpp:107-108 | a mapping that ends below the resume address leaves the unread listing as it was |
| Stealer.ReserveGap | address-space-stealing/alloc.cpp:104-117 | reserves and records a gap if it is not empty, keeping the space accounted for and the unread listing intact |
| Stealer.Refill | address-space-stealing/alloc.cpp:49-55 | retries EAGAIN and ends; the buffer then holds what was delivered |
| Stealer.AtEndOfFile | address-space-stealing/alloc.cpp:57-83 | the last gap completes the reservations to all the gaps |
| Stealer.AtDash | address-space-stealing/alloc.cpp:96-121 | the step of the one-pass parser on '-', with its reservation made and recorded |
| Stealer.Parse | address-space-stealing/alloc.cpp:88-136 | one character of the loop is one step of the one-pass parser |
| Stealer.Turn | address-space-stealing/alloc.cpp:47-137 | one turn of the chunked loop: a refill if needed, then a character or the end of the file |
| Stealer.Scan | address-space-stealing/alloc.cpp:47-137 | the chunked loop terminates and makes the reservations of the one-pass parser, for every delivery of the text |
| Stealer.MappedIff | address-space-stealing/alloc.cpp:69 | if the reservations asked for are the gaps, the interval is fully mapped exactly if none of them failed |
| Stealer.StealMemoryRegion | address-space-stealing/alloc.cpp:31-139 | the recorded pairs are exactly the gaps, no mapping was replaced, the interval is fully mapped exactly if no mmap failed, and the stores fit the declared bucket exactly if there are at most 16 gaps |
| Stealer.Steal | address-space-stealing/alloc.cpp:141-143 | the same for the interval the program uses |
| Stealer.ListingWithGaps | address-space-stealing/alloc.cpp:16-19 | there are well-formed listings with any number of gaps, such as one of 16 regions and 17 gaps |
| Reserve.FitsIffSomeGapFits | src/reserve-address-space.cpp:25-35 | consecutive free pages exist just if one gap has that many |
| Reserve.AddressSpace.Mmap | src/reserve-address-space.cpp:25-35 | takes the pages out of some gap, or fails with ENOMEM or EPERM only if no gap fits |
| Reserve.PlacedTotal | src/reserve-address-space.cpp:36 | what one success does to any sum over the gaps |
| Reserve.PlacedInside | src/reserve-address-space.cpp:36 | the block was free, and what stays free was free and is apart from it |
| Reserve.GreedyIsPopCount | src/reserve-address-space.cpp:19-41 | halving blocks fill a gap with g / 2^k whole blocks and one per binary one of the rest |
| Reserve.ApartIsDistinct | src/reserve-address-space.cpp:39-41 | once all gaps are below twice the block size, no gap holds two blocks of a round |
| Reserve.ProgressDone | src/reserve-address-space.cpp:22-37 | once mmap fails, each gap of at least one block and below two has given exactly one |
| Reserve.Take | src/reserve-address-space.cpp:25-36 | one turn of the inner loop, with the block apart from all that is left |
| Reserve.Fill | src/reserve-address-space.cpp:22-37 | a round ends with all gaps below the block size, the total grown by its blocks; unless a gap could hold two, each gap that holds a block has given exactly one |
| Reserve.ReserveAll | src/reserve-address-space.cpp:19-41 | ends with no free page and the free bytes as total (in 64 bits); each round starts from what the last one left, and all but the first find every gap below two blocks and take one from each that holds one; with end placement the count of blocks is the sum of digit counts |
| Reserve.HistoryStep | src/reserve-address-space.cpp:39-41 | one more finished round: after halving, no gap is as large as two blocks |
| Reserve.SuccessCount | src/reserve-address-space.cpp:19-41 | the greedy number of blocks over all gaps is the sum of whole blocks and binary digit counts |
| Reserve.Program | src/reserve-address-space.cpp:16-47 | from the real first size: the status is -1 exactly if mmap has failed for another reason than lack of space; else nothing is free, with the total, the history of all 40 rounds and, with end placement, the block count as before |
| Reserve.StartSize | src/reserve-address-space.cpp:20 | the first block size is 1 << 51 bytes |
| Congruence.ReachesZeroIff | src/signals-nested-2.cpp:54-63 | a counter reaches zero modulo m just if gcd(step, m) divides its start |
| CodeGen.EmitBlock | src/signals-nested-2.cpp:46-63 | stores one block, and nothing else |
| CodeGen.BlockBytes | src/signals-nested-2.cpp:46-63 | the very bytes of both programs' blocks |
| CodeGen.GenCode | src/signals-nested-2.cpp:38-68 | for every buffer of at least 100 bytes: in bounds, as many blocks as it takes to fill all but the last 100 bytes and no more, then one `ret`, the rest as it was |
| CodeGen.Decode | src/signals-nested-2.cpp:46-63 | the emitted bytes decode to the intended instructions, and the jump leads to the `add` of its own block |
| CodeGen.InLoop | src/signals-nested-2.cpp:54-63 | until the counter is zero, control stays in the block's loop |
| CodeGen.RunBlock | src/signals-nested-2.cpp:46-63 | a block whose counter is first zero after k additions takes 1 + 2k steps |
| CodeGen.StuckInBlock | src/signals-nested.cpp:44-61 | a block whose counter is never zero is never left |
| CodeGen.ReturnsAfter | src/signals-nested-2.cpp:16-21 | n blocks return after exactly n(1 + 2k) + 1 steps and not before, with eax zero |
| CodeGen.ReturnsIff | src/signals-nested-2.cpp:16-21 | for arbitrary immediates, the code returns just if gcd(increment, 2^32) divides the start |
| CodeGen.Nested2Returns | src/signals-nested-2.cpp:44-66 | the code of signals-nested-2 returns after exactly 5n + 1 steps and not before |
| CodeGen.Nested2ProgramReturns | src/signals-nested-2.cpp:38-68 | the 4 MiB buffer gets 349517 blocks, and its code returns in step 1747586 |
| CodeGen.NestedValues | src/signals-nested.cpp:44-57 | what the immediates of signals-nested really are |
| CodeGen.NestedNeverReturns | src/signals-nested.cpp:16-21 | the code of signals-nested never leaves its first block |
| Signals.EnterReturn | src/tests/signal/sigtest_samask.cpp:18-38 | returning from a handler restores the mask and the handlers of before |
| Signals.EnterDeferring | src/smc-signals.cpp:57-61 | delivery keeps every live handler's signal blocked |
| Signals.ReturnDeferring | src/smc-signals.cpp:57-61 | so does returning |
| Signals.LiveSignalsDistinct | src/smc-signals.cpp:57-61 | with deferred delivery, live handlers are for distinct signals |
| Signals.LiveHandlersBounded | src/smc-signals.cpp:12 | so there are no more of them than signals |
| SigTests.SamaskProgram.Handler | src/tests/signal/sigtest_samask.cpp:18-38 | each case of the handler, with the signal blocked or not |
| SigTests.SamaskProgram.RunHandler | src/tests/signal/sigtest_samask.cpp:18-38 | one delivery, from entry to return |
| SigTests.SamaskProgram.Raise | src/tests/signal/sigtest_samask.cpp:51 | a blocked signal stays pending; otherwise all the deliveries a raise leads to |
| SigTests.SamaskProgram.FirstPhase | src/tests/signal/sigtest_samask.cpp:47-52 | deferred: NUMCOUNT + 1 runs, never two at once, both counters at NUMCOUNT; nested: exit -1 |
| SigTests.SamaskProgram.Run | src/tests/signal/sigtest_samask.cpp:40-71 | status 0 exactly if delivery is deferred or NUMCOUNT is 0, else -1 |
| SigTests.NoDeferProgram.Handler | src/tests/signal/sigtest_no_defer.cpp:13-29 | each case of the handler |
| SigTests.NoDeferProgram.Raise | src/tests/signal/sigtest_no_defer.cpp:23 | immediate: one nested handler per remaining count, then exit 0; deferred: exit -1 on the second entry |
| SigTests.NoDeferProgram.Run | src/tests/signal/sigtest_no_defer.cpp:31-45 | status 0 with NUMCOUNT + 1 nested handlers and `count` still 0 exactly if delivery is immediate (or NUMCOUNT is 0) |
| SigTests.SigmaskProgram.Handler | src/tests/signal/sigtest_sigmask.cpp:13-25 | re-entry exits; otherwise the signal is pending and the saved mask full |
| SigTests.SigmaskProgram.Raise | src/tests/signal/sigtest_sigmask.cpp:38 | what a raise comes to, by whether the signal is deferred and the edited mask honoured |
| SigTests.SigmaskProgram.Run | src/tests/signal/sigtest_sigmask.cpp:27-42 | status 0 exactly if the signal is deferred and the edited mask is restored; the signal then stays pending |
| SmcSignals.CodeValue | src/smc-signals.cpp:20-31 | running the page's bytes gives the value the patched byte stands for |
| SmcSignals.StepKeeps | src/smc-signals.cpp:16-61 | every delivery and every statement keeps the invariant |
| SmcSignals.EveryRun | src/smc-signals.cpp:16-61 | in every run: no failure, distinct live signals (at most five), own pages, and `count` ten per finished test plus progress |
| SmcSignals.HandlerFinishes | src/smc-signals.cpp:16-61 | wherever a deliverable signal lands, 244 statements of its handler later there are ten more tests counted, one more call finished, and the mask, the other handlers and the memory are as before |
| SmcSignals.Advances | src/smc-signals.cpp:16-61 | each statement brings the handler nearer to its return and touches only its own page |
| SmcSignals.CheckDetects | src/smc-signals.cpp:48-50 | `failed` is set exactly if one of the four results is not what it should be |
| SmcSignals.StoreFaultsIff | src/smc-signals.cpp:20-45 | a store goes wrong just if its page is not mapped or not writable |
| SmcSignals.Program.Signal | src/smc-signals.cpp:57-59 | the class performs the delivery step |
| SmcSignals.Program.Map | src/smc-signals.cpp:17 | mmap gives the handler a page object of its own |
| SmcSignals.Program.Write | src/smc-signals.cpp:20-45 | a byte stored in place in one page changes no other |
| SmcSignals.Program.Protect | src/smc-signals.cpp:33-43 | nor does a change of its protection |
| SmcSignals.Program.RunCode | src/smc-signals.cpp:28-47 | a call runs the bytes of the handler's own page |
| SmcSignals.Program.Continue | src/smc-signals.cpp:16-61 | the class performs each statement's step, on the page object of the innermost handler |
| SmcSignals.Program.Play | src/smc-signals.cpp:16-61 | any schedule, from any valid state, ends in the state of the run, which is safe |
| SignalsNested.StepKeeps | src/signals-nested.cpp:16-34 | no step ends a handler or its call of the code, and `sigcount` counts the live ones |
| SignalsNested.EveryRun | src/signals-nested.cpp:23-34 | the exit is taken by exactly the 1001st handler to count itself; main wakes up only if there was none |
| SignalsNested.NoHandlerReturns | src/signals-nested.cpp:16-34 | every handler stays live at its place, with its saved mask, and once in its first call of the code stays in that call |
| SignalsNested.CodeRuns | src/signals-nested.cpp:16-21 | k turns of a handler execute the first k instructions of its code, whatever the code is |
| SignalsNested.HandlerReturns | src/signals-nested.cpp:31-33 | a handler whose code returns in step m is gone after ten times m instructions, with the mask of before |
| SignalsNested.WouldReturn | src/signals-nested.cpp:31-33 | so with the immediates of signals-nested-2 every handler would return |
| SignalsNested.ExitReachable | src/signals-nested.cpp:25-29 | 1001 ticks lead to exit status 0, and none to main's return of 1 |
| SignalsNested.Program.TimerExpires | src/signals-nested.cpp:75-99 | the class performs the delivery step, with a new frame on top of the others |
| SignalsNested.Program.Count | src/signals-nested.cpp:25-29 | the class performs `sigcount++` and its test |
| SignalsNested.Program.Continue | src/signals-nested.cpp:31-33 | the class performs one instruction of the code, in the frame on top |
| SignalsNested.Program.Play | src/signals-nested.cpp:16-34 | any schedule keeps the invariant and every live handler |
| ContextDemo.ContextKeeps | src/signals/context-demo.c:74-111 | every step of a context or its handler keeps the invariant |
| ContextDemo.SchedulerKeeps | src/signals/context-demo.c:55-66 | so does every step of the scheduler in which no signal is delivered to it |
| ContextDemo.MainKeeps | src/signals/context-demo.c:225-240 | so does every step of main, where the signal is blocked |
| ContextDemo.EveryRun | src/signals/context-demo.c:54-111 | `insig` is 1 exactly for contexts inside their handler, no nested exit, nothing on the signal stack when it is rebuilt, each handler uncounts what it counted |
| ContextDemo.NestedRunExits | src/signals/context-demo.c:81-85 | with the empty mask, two signals reach the nested-signal exit, for any number of contexts |
| ContextDemo.NoNestedSignalsIffMasked | src/signals/context-demo.c:103 | the exit is unreachable, and the whole invariant holds in every run, exactly if the scheduler's mask blocks SIGALRM |
| ContextDemo.RoundsReach | src/signals/context-demo.c:60-106 | with the empty mask, what a signal in each of j rounds of the scheduler leads to |
| ContextDemo.MismatchedRun | src/signals/context-demo.c:81-110 | with the empty mask and two or more contexts, a handler can uncount another context than it counted |
| ContextDemo.AloneStep | src/signals/context-demo.c:81-85 | with one context, a signal that lands in the scheduler can only lead to the nested-signal exit |
| ContextDemo.StackAndCountsSafeIff | src/signals/context-demo.c:99-110 | the signal stack is never rebuilt while in use, and handlers uncount what they counted, exactly if the mask blocks SIGALRM or there is one context |
| ContextDemo.NullContextIffUnblocked | src/signals/context-demo.c:131-137 | the handler never follows cur_context before main has set it, exactly if main has blocked SIGALRM |
| ContextDemo.ResumedIsModulo | src/signals/context-demo.c:60 | after k switches control is with context k modulo NUMCONTEXTS |
| ContextDemo.OnceEach | src/signals/context-demo.c:60-65 | between two resumptions of a context every other one is resumed exactly once |
| ContextDemo.OneTurn | src/signals/context-demo.c:54-111 | with the mask, a tick that finds control in a context's body passes it to the body of the next, unblocked, by ten events |
| ContextDemo.Rotates | src/signals/context-demo.c:54-111 | with the mask, for every k there is a run of k switches, ending in the body of context k modulo NUMCONTEXTS with SIGALRM unblocked |
| ContextDemo.Program.constructor | src/signals/context-demo.c:209-223 | the state main has set up before it starts the timer |
| ContextDemo.Program.StartUp | src/signals/context-demo.c:225-240 | the class performs the remaining steps of main |
| ContextDemo.Program.EnterInterrupt | src/signals/context-demo.c:81-94 | the class performs these lines' step |
| ContextDemo.Program.BuildScheduler | src/signals/context-demo.c:99-104 | the class performs these lines' step |
| ContextDemo.Program.SwapContext | src/signals/context-demo.c:106 | saves the running context and goes to the scheduler |
| ContextDemo.Program.LeaveInterrupt | src/signals/context-demo.c:110-111 | the class performs these lines' steps |
| ContextDemo.Program.Schedule | src/signals/context-demo.c:55-66 | the class performs the scheduler's steps |
| ContextDemo.Program.Play | src/signals/context-demo.c:54-111 | any schedule ends in the state of the run, which is consistent |
| Trampoline.QuadRoundTrip | src/copyable-functions/section-test.cpp:94-98 | a 64-bit word stored and loaded is unchanged |
| Trampoline.CallInstance | src/copyable-functions/section-test.cpp:25-40 | calling a bound copy reaches its marshaler with its target and the arguments |
| Trampoline.CallNeedsCode | src/copyable-functions/section-test.cpp:25-40 | a copy with one other byte outside the bound words does not do so |
| Trampoline.ImageDiffersOnlyWhereBound | src/copyable-functions/section-test.cpp:77-98 | a copy differs from the canonical section only in the info words and the patched immediate |
| Trampoline.Loader.CopySection | src/copyable-functions/copyable-functions.h:34-38 | the fresh range holds the section, everything else is as before |
| Trampoline.Loader.Bind | src/copyable-functions/copyable-functions.h:40-58 | the copy becomes the instance's image, everything else is as before |
| Trampoline.Loader.MakeInstance | src/copyable-functions/copyable-functions.h:29-61 | one more instance, with its target, its marshaler and the patched address in their places; all earlier ones and the canonical section unchanged |
| Trampoline.Loader.EveryInstance | src/copyable-functions/copyable-functions.h:17-22 | after any number of calls every instance invokes its own marshaler with its own target |

## Left out

- Buckets.MemoryRegionBucket.Put: a bucket's words are a fixed-length sequence reassigned in place, because the C++ bucket holds them inline; the link is a field of its own.
- Buckets.RegionList.constructor: initialises the first terminator and the link word, which the code leaves unwritten; Walk says when that matters.
- Kernel.Kernel.MapFixed: works at byte granularity; by GapsAligned the kernel's rounding to pages never happens for page-aligned bounds.
- Kernel.Kernel.Read: read errors other than EAGAIN, and listings that are not well-formed, are outside the input the code is written for.
- Bytes are modelled as characters; only characters that are no hex digits could tell signed from unsigned ones.
- The copy of the listing written to file descriptor 2, and what AfterGrab starts.
- Timing and printing in all programs, and the stack-address arithmetic of context-demo.c.
- SmcSignals.Program.Write: a page's bytes are a sequence field of the page object, reassigned in place.
- SmcSignals.EveryRun: the sending thread is replaced by arbitrary deliveries, which include what it sends.
- SignalsNested.EveryRun: `exit` and the `sigcount` increment are one step; a signal landing inside exit is not modelled.
- ContextDemo.EveryRun: is for the build without BUGGYSETUP, where main blocks the signal; NullContextIffUnblocked is for both.
- The handler and the sending thread of signals-nested-2.cpp; its generated code is modelled.
- Trampoline.CallInstance: machine code other than the patched immediate is compared with the canonical section, not executed; marshalers are addresses.
- CodeGen.GenCode: the file behind the buffer and its mappings.
- The seccomp filter, and the programs decided by kernel mapping rules or emulator caches: mremap, prot-growsdown, memfd, shmid, and the smc programs other than smc-signals.
- The remaining signal tests, x11main and fexreader: thin checks over platform libraries.
