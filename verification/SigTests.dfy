/** The three programs that re-raise a signal from inside its own handler. */
module SigTests {
  import opened Words
  import opened Signals

  const SIGN := 20  // SIGTSTP

  /** sigtest_samask.cpp. `defers` tells whether the kernel blocks a signal while its handler runs. */
  class SamaskProgram {
    const limit: nat
    const defers: bool
    var p: Process
    var loop: bool
    var last: bool
    var count: nat
    var count2: nat
    var exited: Option<int>
    ghost var runs: nat  // handler entries
    ghost var deepest: nat  // the most handlers live at once

    constructor (limit: nat, defers: bool)
      ensures this.limit == limit && this.defers == defers && p == IDLE && loop && !last
      ensures count == 0 && count2 == 0 && exited == None && runs == 0 && deepest == 0
    {
      this.limit, this.defers, p, loop, last := limit, defers, IDLE, true, false;
      count, count2, exited, runs, deepest := 0, 0, None, 0, 0;
    }

    // Orders the calls: a nested raise finds the counters apart, or the signal blocked.
    ghost function Rank(): nat
      reads this
    {
      if SIGN in p.mask then 0 else if count2 == count then 2 else 1
    }

    ghost predicate Unblockable()
      reads this
    {
      !(SIGKILL in p.mask || SIGSTOP in p.mask)
    }

    // First phase, and no handler is in between its two counts.
    ghost predicate Even()
      reads this
    {
      !last && count2 == count
    }

    // `deepest`, once one more handler has run on top of those live now.
    ghost function Deepened(was: nat): nat
      reads this
    {
      if was > |p.frames| then was else |p.frames| + 1
    }

    twostate predicate CountsSame()
      reads this
    {
      exited == None && count == old(count) && count2 == old(count2)
    }

    twostate predicate RunsSame()
      reads this
    {
      runs == old(runs) && deepest == old(deepest)
    }

    twostate predicate RanOnce()
      reads this
    {
      runs == old(runs) + 1 && deepest == Deepened(old(deepest))
    }

    // A blocked signal stays pending, and nothing else changes.
    twostate predicate OnlyPosted()
      reads this
    {
      p == Post(old(p), SIGN) && loop == old(loop) && CountsSame() && RunsSame()
    }

    // A handler that has raised the signal once more, and counted that.
    twostate predicate CountedOne()
      reads this
    {
      p.pending == {SIGN} && !loop && exited == None && count == count2 == old(count) + 1
    }

    twostate predicate MasksSame()
      reads this
    {
      last == old(last) && (exited == None ==> p.mask == old(p.mask) && p.frames == old(p.frames))
    }

    method Raise()
      requires exited == None && p.pending == {} && Unblockable()
      modifies this
      ensures last == old(last)
      ensures old(SIGN in p.mask) ==> OnlyPosted()
      ensures old(SIGN !in p.mask && last) ==> p == old(p) && !loop && CountsSame()
      ensures old(SIGN !in p.mask && !last && count2 != count) ==> exited == Some(-1)
      ensures old(SIGN !in p.mask && Even() && count < limit) && !defers ==> exited == Some(-1)
      ensures old(SIGN !in p.mask && Even() && count <= limit) && (defers || old(count) == limit) ==>
                && p == old(p) && !loop && exited == None && count == count2 == limit
                && runs == old(runs) + limit - old(count) + 1 && deepest == Deepened(old(deepest))
      decreases Rank(), 2
    {
      p := Post(p, SIGN);
      while exited == None && CanDeliver(p, SIGN)
        invariant MasksSame() && (exited == None ==> p.pending <= {SIGN})
        invariant old(SIGN in p.mask) ==> OnlyPosted()
        invariant old(SIGN !in p.mask && last) ==> CountsSame() && (SIGN in p.pending || !loop)
        invariant old(SIGN !in p.mask && !last) && (old(count2 != count) || (old(count < limit) && !defers)) ==>
                    exited == Some(-1) || (SIGN in p.pending && CountsSame())
        invariant old(SIGN !in p.mask && Even() && count <= limit) && (defers || old(count) == limit) ==>
                    && exited == None && count == count2 <= limit
                    && (if SIGN in p.pending then runs == old(runs) + count - old(count)
                        else !loop && count == limit && runs == old(runs) + limit - old(count) + 1)
                    && deepest == if runs == old(runs) then old(deepest) else Deepened(old(deepest))
        decreases if exited == None then 1 else 0, if count < limit then limit - count else 0,
                  if SIGN in p.pending then 1 else 0
      {
        RunHandler();
      }
    }

    // One delivery: entry, handler, return.
    method RunHandler()
      requires exited == None && CanDeliver(p, SIGN) && p.pending == {SIGN} && Unblockable()
      modifies this
      ensures MasksSame()
      ensures old(last) ==> p.pending == {} && !loop && CountsSame()
      ensures old(!last && count2 != count) ==> exited == Some(-1)
      ensures old(Even() && count >= limit) ==> p.pending == {} && !loop && CountsSame() && RanOnce()
      ensures old(Even() && count < limit) ==> if defers then CountedOne() && RanOnce() else exited == Some(-1)
      decreases Rank(), 1
    {
      ghost var before := p;
      p := Enter(p, SIGN, defers);
      runs := runs + 1;
      if deepest < |p.frames| {
        deepest := |p.frames|;
      }
      Handler();
      if exited == None {
        EnterReturn(before, SIGN, defers);
        p := Return(p);
      }
    }

    method Handler()
      requires exited == None && p.pending == {} && Unblockable()
      modifies this
      ensures MasksSame()
      ensures old(last) ==> p.pending == {} && !loop && CountsSame()
      ensures old(!last && count2 != count) ==> exited == Some(-1)
      ensures old(Even() && count >= limit) ==> p.pending == {} && !loop && CountsSame() && RunsSame()
      ensures old(Even() && count < limit) ==>
                if old(SIGN in p.mask) then CountedOne() && RunsSame() else exited == Some(-1)
      decreases Rank(), if SIGN in p.mask then 3 else 0
    {
      if last {
        loop := false;
        return;
      }
      if count2 != count {
        exited := Some(-1);
        return;
      }
      loop := false;
      if count < limit {
        count2 := count2 + 1;
        Raise();
        if exited != None { return; }
        count := count + 1;
      }
    }

    // The first loop: deferred, the handler runs limit + 1 times, one at a time; nested, it exits.
    method FirstPhase()
      requires p == IDLE && exited == None && count == 0 && count2 == 0 && runs == 0 && deepest == 0
      modifies this
      ensures exited == (if defers || limit == 0 then None else Some(-1))
      ensures exited == None ==> p == IDLE && count == count2 == limit && runs == limit + 1 && deepest == 1
    {
      last := false;
      loop := true;
      while loop && exited == None
        invariant !last
        invariant exited == None && loop ==> p == IDLE && count == 0 && count2 == 0 && runs == 0 && deepest == 0
        invariant exited == None && !loop ==> p == IDLE && count == count2 == limit && runs == limit + 1 && deepest == 1
        invariant exited == None && !loop ==> defers || limit == 0
        invariant exited != None ==> exited == Some(-1) && !(defers || limit == 0)
        decreases if loop then 1 else 0, if exited == None then 1 else 0
      {
        Raise();
      }
    }

    // The program returns 0 exactly if nested delivery is deferred (or never tried).
    method Run() returns (status: int)
      requires p == IDLE && exited == None && count == 0 && count2 == 0 && runs == 0 && deepest == 0
      modifies this
      ensures status == (if defers || limit == 0 then 0 else -1)
      ensures status == 0 ==> count == count2 == limit && p == IDLE
    {
      FirstPhase();
      if exited != None { return exited.value; }
      last := true;
      loop := true;
      while loop
        invariant exited == None && last && p == IDLE && count == count2 == limit && (defers || limit == 0)
        decreases if loop then 1 else 0
      {
        Raise();
        if loop { return -3; }
      }
      return 0;
    }
  }

  /** sigtest_no_defer.cpp. `defers` is false for a kernel that honours SA_NODEFER. */
  class NoDeferProgram {
    const limit: nat
    const defers: bool
    var p: Process
    var loop: bool
    var count: nat
    var count2: nat
    var exited: Option<int>
    ghost var runs: nat  // handler entries

    constructor (limit: nat, defers: bool)
      ensures this.limit == limit && this.defers == defers && p == IDLE && loop
      ensures count == 0 && count2 == 0 && exited == None && runs == 0
    {
      this.limit, this.defers, p, loop := limit, defers, IDLE, true;
      count, count2, exited, runs := 0, 0, None, 0;
    }

    ghost predicate Unblockable()
      reads this
    {
      !(SIGKILL in p.mask || SIGSTOP in p.mask)
    }

    // A blocked signal stays pending, and nothing else changes.
    twostate predicate OnlyPosted()
      reads this
    {
      p == Post(old(p), SIGN) && exited == None && count == old(count) && count2 == old(count2) && runs == old(runs)
    }

    // All the `handlers` still to come are nested, and the last of them has exited.
    twostate predicate Nested(handlers: nat)
      reads this
    {
      && exited == Some(0) && count == 0 && count2 == limit
      && |p.frames| == |old(p.frames)| + handlers && runs == old(runs) + handlers
    }

    // The first handler finished before the second, which found `count` changed; unless there was no second.
    twostate predicate InSequence()
      reads this
    {
      if old(count2) < limit then exited == Some(-1) && runs == old(runs) + 2
      else exited == Some(0) && runs == old(runs) + 1
    }

    // With immediate delivery every raise nests one handler deeper, until the last one exits; with
    // deferred delivery the first handler finishes, and the second finds `count` changed.
    method Raise()
      requires exited == None && count == 0 && count2 <= limit && p.pending == {} && Unblockable()
      requires SIGN in p.mask ==> count2 > 0
      modifies this
      ensures old(SIGN in p.mask) ==> OnlyPosted()
      ensures old(SIGN !in p.mask) ==> if defers then InSequence() else Nested(limit - old(count2) + 1)
      decreases limit - count2, if SIGN in p.mask then 0 else 2
    {
      p := Post(p, SIGN);
      while exited == None && CanDeliver(p, SIGN)
        invariant old(SIGN in p.mask) ==> OnlyPosted()
        invariant old(SIGN !in p.mask) && exited == None ==>
                    p == Post(old(p), SIGN)
                    && if runs == old(runs) then count == 0 && count2 == old(count2)
                       else runs == old(runs) + 1 && count == 1 && count2 == old(count2) + 1 <= limit && defers
        invariant old(SIGN !in p.mask) && exited != None ==>
                    old(count2 <= limit) && if defers then InSequence() else Nested(limit - old(count2) + 1)
        decreases if exited == None then 1 else 0, limit - count2
      {
        p := Enter(p, SIGN, defers);
        runs := runs + 1;
        Handler();
        if exited == None {
          p := Return(p);
        }
      }
    }

    method Handler()
      requires exited == None && count2 <= limit && p.pending == {} && Unblockable()
      requires count != 0 || (SIGN in p.mask <==> defers)
      modifies this
      ensures old(count) != 0 ==> exited == Some(-1) && runs == old(runs)
      ensures old(count) == 0 && old(count2) == limit ==>
                exited == Some(0) && count == 0 && count2 == limit && p == old(p) && runs == old(runs)
      ensures old(count) == 0 && old(count2) < limit && defers ==>
                && exited == None && count == 1 && count2 == old(count2) + 1 && p == Post(old(p), SIGN)
                && runs == old(runs)
      ensures old(count) == 0 && old(count2) < limit && !defers ==> Nested(limit - old(count2))
      decreases limit - count2, 1
    {
      if count != 0 {
        exited := Some(-1);
        return;
      }
      loop := false;
      if count2 < limit {
        count2 := count2 + 1;
        Raise();
        if exited != None { return; }
        count := count + 1;
      } else {
        exited := Some(0);
      }
    }

    // The program exits 0, in the innermost of limit + 1 nested handlers, exactly if delivery is
    // immediate (or never nested).
    method Run() returns (status: int)
      requires p == IDLE && loop && exited == None && count == 0 && count2 == 0 && runs == 0
      modifies this
      ensures status == (if !defers || limit == 0 then 0 else -1)
      ensures !defers ==> count == 0 && |p.frames| == runs == limit + 1
      ensures defers && limit > 0 ==> runs == 2
    {
      while loop && exited == None
        invariant exited == None ==> loop && p == IDLE && count == 0 && count2 == 0 && runs == 0
        invariant exited != None ==>
                    if defers && limit > 0 then exited == Some(-1) && runs == 2
                    else exited == Some(0) && runs == limit + 1
        invariant exited != None && !defers ==> count == 0 && |p.frames| == limit + 1
        decreases if exited == None then 1 else 0
      {
        Raise();
      }
      return if exited == None then -2 else exited.value;
    }
  }

  /** sigtest_sigmask.cpp. `honours` tells whether the return from a handler restores the mask the handler left
      in its context, `defers` whether the signal is blocked during its handler. */
  class SigmaskProgram {
    const defers: bool
    const honours: bool
    const all: set<nat>  // what sigfillset gives
    var p: Process
    var loop: bool
    var inHandler: bool
    var exited: Option<int>

    constructor (defers: bool, honours: bool, all: set<nat>)
      ensures this.defers == defers && this.honours == honours && this.all == all
      ensures p == IDLE && loop && !inHandler && exited == None
    {
      this.defers, this.honours, this.all := defers, honours, all;
      p, loop, inHandler, exited := IDLE, true, false, None;
    }

    method Raise()
      requires exited == None && p.pending == {} && SIGN in all && !(SIGKILL in p.mask || SIGSTOP in p.mask)
      requires SIGN in p.mask ==> inHandler
      modifies this
      ensures inHandler
      ensures old(SIGN in p.mask) ==> p == Post(old(p), SIGN) && loop == old(loop) && exited == None
      ensures old(SIGN !in p.mask) && (old(inHandler) || !defers || !honours) ==> exited == Some(-1)
      ensures old(SIGN !in p.mask && !inHandler) && defers && honours ==>
                && exited == None && !loop
                && p == Process(all - {SIGKILL, SIGSTOP}, {SIGN}, old(p.frames))
      decreases if inHandler then 0 else 2, if SIGN in p.mask then 0 else 2
    {
      p := Post(p, SIGN);
      while exited == None && CanDeliver(p, SIGN)
        invariant old(SIGN in p.mask) ==>
                    p == Post(old(p), SIGN) && loop == old(loop) && exited == None && inHandler == old(inHandler)
        invariant old(SIGN !in p.mask) && (old(inHandler) || !defers) && exited == None ==>
                    p == Post(old(p), SIGN) && inHandler == old(inHandler)
        invariant old(SIGN !in p.mask && !inHandler) && defers && exited == None ==>
                    if inHandler then
                      var mask := if honours then all - {SIGKILL, SIGSTOP} else old(p.mask);
                      !loop && p == Process(mask, {SIGN}, old(p.frames))
                    else p == Post(old(p), SIGN)
        invariant exited != None ==>
                    exited == Some(-1) && inHandler && old(SIGN !in p.mask) && (old(inHandler) || !defers || !honours)
        decreases if exited == None then 1 else 0, if inHandler then 0 else 1
      {
        var saved := p.mask;
        p := Enter(p, SIGN, defers);
        Handler();
        if exited == None {
          if !honours {
            p := EditSaved(p, saved);
          }
          p := Return(p);
        }
      }
    }

    method Handler()
      requires exited == None && p.pending == {} && p.frames != [] && SIGN in all
      requires !(SIGKILL in p.mask || SIGSTOP in p.mask)
      requires inHandler || (SIGN in p.mask <==> defers)
      modifies this
      ensures inHandler
      ensures old(inHandler) || !defers ==> exited == Some(-1)
      ensures !old(inHandler) && defers ==>
                exited == None && !loop && p == EditSaved(Post(old(p), SIGN), all)
      decreases if inHandler then 0 else 2, 1
    {
      if inHandler {
        exited := Some(-1);
        return;
      }
      inHandler := true;
      loop := false;
      Raise();
      if exited != None { return; }
      p := EditSaved(p, all);
    }

    // The program returns 0 exactly if the signal is deferred and its return uses the edited mask; the
    // second signal is then still pending, behind a mask that lets only SIGKILL and SIGSTOP through.
    method Run() returns (status: int)
      requires p == IDLE && loop && !inHandler && exited == None && SIGN in all
      modifies this
      ensures status == (if defers && honours then 0 else -1)
      ensures status == 0 ==> p == Process(all - {SIGKILL, SIGSTOP}, {SIGN}, [])
    {
      while loop
        invariant exited == None
        invariant if loop then p == IDLE && !inHandler
                  else defers && honours && p == Process(all - {SIGKILL, SIGSTOP}, {SIGN}, [])
        decreases if loop then 1 else 0
      {
        Raise();
        if exited != None { return exited.value; }
      }
      return 0;
    }
  }
}
