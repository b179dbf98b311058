/** The command loop: which outcome ends it, and that every other command is followed by the next one,
    for the simulator and for the reference machine. */
module VmLoop {
  import opened VmModel
  import opened VmEager

  /** A command that is done, or is refused and is no alloc, is followed by the rest of the trace; a refused
      alloc is the last one, and so is a command that leaves no defined state. */
  lemma RunGoesOn(s: Vm, c: Command, rest: seq<Command>)
    ensures var (s', o) := Step(s, c);
      Run(s, [c] + rest) == match o
                            case Done => (Run(s', rest).0, [o] + Run(s', rest).1)
                            case Loaded(_) => (Run(s', rest).0, [o] + Run(s', rest).1)
                            case Refused => if c.Alloc? then (s', [o]) else (Run(s', rest).0, [o] + Run(s', rest).1)
                            case Crash => (s', [o])
                            case Hang => (s', [o])
                            case Overrun => (s', [o])
  {
    hide Step;
    assert ([c] + rest)[0] == c && ([c] + rest)[1..] == rest;
  }

  lemma EagerGoesOn(e: Eager, c: Command, rest: seq<Command>)
    ensures var (e', o) := EagerStep(e, c);
      && o !in {Crash, Hang, Overrun}
      && EagerRun(e, [c] + rest) == if o == Refused && c.Alloc? then (e', [o])
                                    else (EagerRun(e', rest).0, [o] + EagerRun(e', rest).1)
  {
    assert ([c] + rest)[0] == c && ([c] + rest)[1..] == rest;
  }

  /** Every command has its outcome, unless the last outcome is that of a refused alloc, or a crash, a hang
      or an overrun; no earlier outcome is. */
  predicate Answered(trace: seq<Command>, os: seq<Outcome>) {
    var n := |os| - 1;
    && (n + 1 == |trace| || (0 <= n < |trace| - 1 && (os[n] in {Crash, Hang, Overrun}
                                                      || (os[n] == Refused && trace[n].Alloc?))))
    && forall k :: 0 <= k < n ==> os[k] !in {Crash, Hang, Overrun} && !(os[k] == Refused && trace[k].Alloc?)
  }

  lemma {:induction false} EveryCommandAnswered(s: Vm, trace: seq<Command>)
    ensures Answered(trace, Run(s, trace).1)
    decreases |trace|
  {
    hide Step;
    if trace != [] {
      assert trace == [trace[0]] + trace[1..];
      RunGoesOn(s, trace[0], trace[1..]);
      EveryCommandAnswered(Step(s, trace[0]).0, trace[1..]);
    }
  }

  /** The reference machine stops early on a refused alloc only. */
  lemma {:induction false} EagerCommandsAnswered(e: Eager, trace: seq<Command>)
    ensures Answered(trace, EagerRun(e, trace).1)
    ensures forall o :: o in EagerRun(e, trace).1 ==> o !in {Crash, Hang, Overrun}
    decreases |trace|
  {
    hide EagerStep;
    if trace != [] {
      assert trace == [trace[0]] + trace[1..];
      EagerGoesOn(e, trace[0], trace[1..]);
      EagerCommandsAnswered(EagerStep(e, trace[0]).0, trace[1..]);
    }
  }
}
