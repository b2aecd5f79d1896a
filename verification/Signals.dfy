/** Signal delivery to one thread: the mask, the pending signals and the handlers that are live. */
module Signals {
  /** A live handler, with the mask that its return restores. */
  datatype Frame = Frame(signal: nat, saved: set<nat>)

  datatype Process = Process(mask: set<nat>, pending: set<nat>, frames: seq<Frame>)

  const IDLE := Process({}, {}, [])

  const SIGKILL := 9
  const SIGSTOP := 19

  function Post(p: Process, signal: nat): Process {
    p.(pending := p.pending + {signal})
  }

  predicate CanDeliver(p: Process, signal: nat) {
    signal in p.pending && signal !in p.mask
  }

  // Handler entry. Unless it is deferred, the signal may be delivered again at once.
  function Enter(p: Process, signal: nat, deferred: bool): Process
    requires CanDeliver(p, signal)
  {
    Process(p.mask + (if deferred then {signal} else {}), p.pending - {signal}, p.frames + [Frame(signal, p.mask)])
  }

  // Return from the innermost handler; two signals cannot be blocked whatever the saved mask says.
  function Return(p: Process): Process
    requires p.frames != []
  {
    var n := |p.frames| - 1;
    Process(p.frames[n].saved - {SIGKILL, SIGSTOP}, p.pending, p.frames[..n])
  }

  // A handler's change to the mask saved for its own return.
  function EditSaved(p: Process, mask: set<nat>): Process
    requires p.frames != []
  {
    var n := |p.frames| - 1;
    p.(frames := p.frames[n := p.frames[n].(saved := mask)])
  }

  lemma EnterReturn(p: Process, signal: nat, deferred: bool)
    requires CanDeliver(p, signal) && p.mask !! {SIGKILL, SIGSTOP}
    ensures Return(Enter(p, signal, deferred)) == p.(pending := p.pending - {signal})
  {
    assert (p.frames + [Frame(signal, p.mask)])[..|p.frames|] == p.frames;
  }

  // The mask in force while handler `i` is innermost.
  function MaskAt(p: Process, i: nat): set<nat>
    requires i < |p.frames|
  {
    if i + 1 < |p.frames| then p.frames[i + 1].saved else p.mask
  }

  // Every live handler was entered with its signal unblocked, and has blocked it since.
  ghost predicate Deferring(p: Process) {
    && p.mask !! {SIGKILL, SIGSTOP}
    && forall i {:trigger MaskAt(p, i)} :: 0 <= i < |p.frames| ==>
         && p.frames[i].signal !in p.frames[i].saved
         && p.frames[i].saved !! {SIGKILL, SIGSTOP}
         && MaskAt(p, i) == p.frames[i].saved + {p.frames[i].signal}
  }

  lemma PostDeferring(p: Process, signal: nat)
    requires Deferring(p)
    ensures Deferring(Post(p, signal))
  {
    var q := Post(p, signal);
    forall i | 0 <= i < |q.frames|
      ensures q.frames[i].signal !in q.frames[i].saved && q.frames[i].saved !! {SIGKILL, SIGSTOP}
           && MaskAt(q, i) == q.frames[i].saved + {q.frames[i].signal}
    {
      assert MaskAt(p, i) == p.frames[i].saved + {p.frames[i].signal};
    }
  }

  lemma EnterDeferring(p: Process, signal: nat)
    requires Deferring(p) && CanDeliver(p, signal) && signal != SIGKILL && signal != SIGSTOP
    ensures Deferring(Enter(p, signal, true))
  {
    var q := Enter(p, signal, true);
    forall i | 0 <= i < |q.frames|
      ensures q.frames[i].signal !in q.frames[i].saved && q.frames[i].saved !! {SIGKILL, SIGSTOP}
           && MaskAt(q, i) == q.frames[i].saved + {q.frames[i].signal}
    {
      if i < |p.frames| {
        assert MaskAt(p, i) == p.frames[i].saved + {p.frames[i].signal};
      }
    }
  }

  lemma ReturnDeferring(p: Process)
    requires Deferring(p) && p.frames != []
    ensures Deferring(Return(p))
  {
    var q := Return(p);
    var n := |p.frames| - 1;
    assert MaskAt(p, n) == p.frames[n].saved + {p.frames[n].signal};
    assert p.frames[n].saved - {SIGKILL, SIGSTOP} == p.frames[n].saved;
    forall i | 0 <= i < |q.frames|
      ensures q.frames[i].signal !in q.frames[i].saved && q.frames[i].saved !! {SIGKILL, SIGSTOP}
           && MaskAt(q, i) == q.frames[i].saved + {q.frames[i].signal}
    {
      assert MaskAt(p, i) == p.frames[i].saved + {p.frames[i].signal};
    }
  }

  // A signal handled at depth `i` is blocked at every greater depth.
  lemma {:induction false} BlockedAbove(p: Process, i: nat, j: nat)
    requires Deferring(p) && i <= j < |p.frames|
    ensures p.frames[i].signal in MaskAt(p, j)
    decreases j - i
  {
    assert MaskAt(p, j) == p.frames[j].saved + {p.frames[j].signal};
    if i < j {
      BlockedAbove(p, i, j - 1);
      assert MaskAt(p, j - 1) == p.frames[j].saved;
    }
  }

  // With deferred delivery, no two live handlers are for the same signal.
  lemma LiveSignalsDistinct(p: Process, i: nat, j: nat)
    requires Deferring(p) && i < j < |p.frames|
    ensures p.frames[i].signal != p.frames[j].signal
  {
    BlockedAbove(p, i, j - 1);
    assert MaskAt(p, j - 1) == p.frames[j].saved;
    assert MaskAt(p, j) == p.frames[j].saved + {p.frames[j].signal};
  }

  // So there are no more of them than signals that occur.
  lemma LiveHandlersBounded(p: Process, signals: set<nat>)
    requires Deferring(p) && forall i :: 0 <= i < |p.frames| ==> p.frames[i].signal in signals
    ensures |p.frames| <= |signals|
  {
    forall i, j | 0 <= i < j < |p.frames| ensures p.frames[i].signal != p.frames[j].signal {
      LiveSignalsDistinct(p, i, j);
    }
    Pigeonhole(seq(|p.frames|, i requires 0 <= i < |p.frames| => p.frames[i].signal), signals);
  }

  lemma {:induction false} Pigeonhole(s: seq<nat>, values: set<nat>)
    requires forall i, j :: 0 <= i < j < |s| ==> s[i] != s[j]
    requires forall i :: 0 <= i < |s| ==> s[i] in values
    ensures |s| <= |values|
  {
    if s != [] {
      var n := |s| - 1;
      Pigeonhole(s[..n], values - {s[n]});
      assert |values - {s[n]}| == |values| - 1;
    }
  }
}
