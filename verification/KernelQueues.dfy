/** The kernel's queues are first come, first served, over all runs. */
module KernelQueues {
  import opened Lists
  import opened BlockedList
  import opened KernelModel
  import opened KernelInvariant
  import opened KernelRuns

  /** The queues of processes, and the released pids that wait to be handed out again. */
  datatype Queue = NewQueue | ReadyQueue | AuxQueue | PidQueue

  function Line(k: Kernel, q: Queue): (s: seq<int>) {
    match q
    case NewQueue => k.news
    case ReadyQueue => k.readys
    case AuxQueue => k.aux
    case PidQueue => k.freePids
  }

  /** What a step takes from the front of a queue. */
  function Popped(k: Kernel, q: Queue, a: Step): (s: seq<int>) {
    match q
    case NewQueue => if a == Admission(Admit) && k.news != [] then [k.news[0]] else []
    case ReadyQueue => if a == Dispatch(PopReady) && k.readys != [] then [k.readys[0]] else []
    case AuxQueue => if a == Dispatch(PopAux) && k.aux != [] then [k.aux[0]] else []
    case PidQueue => if a == Creation(NewPid) && k.freePids != [] then [k.freePids[0]] else []
  }

  /** What a step puts at the end of a queue. */
  function Pushed(k: Kernel, q: Queue, a: Step): (s: seq<int>) {
    match q
    case NewQueue => if a == Creation(PushNew) && k.shell.Making? then [k.shell.pid] else []
    case AuxQueue => if a.Wakeup? && a.wake.PushAux? then [a.wake.pid] else []
    case PidQueue =>
      (match a
       case Reply(s) => if s == Handle && k.response.Returned? && Final(k.response.reason) then [k.response.pid] else []
       case Wakeup(s) => if s.ReleaseDead? then [s.pid] else []
       case _ => [])
    case ReadyQueue =>
      match a
      case Admission(s) => if s == Admit && k.news != [] then [k.news[0]] else []
      case Reply(s) =>
        if s == Handle && k.response.Returned? && k.response.reason == EndOfQuantum then [k.response.pid] else []
      case Wakeup(s) => if s.PushReady? then [s.pid] else []
      case _ => []
  }

  predicate KillsIn(q: Queue, a: Step) {
    a.Kill? && match q
               case NewQueue => a.kill.KillNew?
               case ReadyQueue => a.kill.KillReady?
               case AuxQueue => a.kill.KillAux?
               case PidQueue => false
  }

  lemma StepNew(k: Kernel, a: Step)
    requires Enabled(k, a) && !KillsIn(NewQueue, a)
    ensures Popped(k, NewQueue, a) + Next(k, a).news == k.news + Pushed(k, NewQueue, a)
  {
    hide Remove, Cut, FirstOf, FirstWaiter;
  }

  lemma StepReady(k: Kernel, a: Step)
    requires Enabled(k, a) && !KillsIn(ReadyQueue, a)
    ensures Popped(k, ReadyQueue, a) + Next(k, a).readys == k.readys + Pushed(k, ReadyQueue, a)
  {
    hide Remove, Cut, FirstOf, FirstWaiter;
  }

  lemma StepAux(k: Kernel, a: Step)
    requires Enabled(k, a) && !KillsIn(AuxQueue, a)
    ensures Popped(k, AuxQueue, a) + Next(k, a).aux == k.aux + Pushed(k, AuxQueue, a)
  {
    hide Remove, Cut, FirstOf, FirstWaiter;
  }

  lemma StepPids(k: Kernel, a: Step)
    requires Enabled(k, a)
    ensures Popped(k, PidQueue, a) + Next(k, a).freePids == k.freePids + Pushed(k, PidQueue, a)
  {
    hide Remove, Cut, FirstOf, FirstWaiter;
  }

  lemma StepQueue(k: Kernel, q: Queue, a: Step)
    requires Enabled(k, a) && !KillsIn(q, a)
    ensures Popped(k, q, a) + Line(Next(k, a), q) == Line(k, q) + Pushed(k, q, a)
  {
    hide Next, Popped, Pushed;
    match q
    case NewQueue => StepNew(k, a);
    case ReadyQueue => StepReady(k, a);
    case AuxQueue => StepAux(k, a);
    case PidQueue => StepPids(k, a);
  }

  ghost predicate KillsNone(q: Queue, run: seq<Step>) {
    forall i :: 0 <= i < |run| ==> !KillsIn(q, run[i])
  }

  ghost function AllPopped(k: Kernel, q: Queue, run: seq<Step>): (s: seq<int>)
    requires Possible(k, run)
    decreases |run|
  {
    if |run| == 0 then [] else Popped(k, q, run[0]) + AllPopped(Next(k, run[0]), q, run[1..])
  }

  ghost function AllPushed(k: Kernel, q: Queue, run: seq<Step>): (s: seq<int>)
    requires Possible(k, run)
    decreases |run|
  {
    if |run| == 0 then [] else Pushed(k, q, run[0]) + AllPushed(Next(k, run[0]), q, run[1..])
  }

  /** What was taken out and what still waits is what waited and what came, in the same order. */
  lemma {:induction false} QueueLaw(k: Kernel, q: Queue, run: seq<Step>)
    requires Possible(k, run) && KillsNone(q, run)
    ensures AllPopped(k, q, run) + Line(After(k, run), q) == Line(k, q) + AllPushed(k, q, run)
    decreases |run|
  {
    hide Next, Enabled, Popped, Pushed, Line, KillsIn;
    if |run| > 0 {
      var next, rest := Next(k, run[0]), run[1..];
      StepQueue(k, q, run[0]);
      QueueLaw(next, q, rest);
      Regroup(Popped(k, q, run[0]), AllPopped(next, q, rest), Line(After(next, rest), q),
              Line(next, q), AllPushed(next, q, rest), Line(k, q), Pushed(k, q, run[0]));
    }
  }

  /**
   Whatever comes, goes and returns meanwhile, the process at place `i` of a queue is the one taken from it after
   exactly `i` others, and until then it stands that many places nearer.
   */
  lemma ServedInOrder(k: Kernel, q: Queue, run: seq<Step>, i: nat)
    requires Possible(k, run) && KillsNone(q, run) && i < |Line(k, q)|
    ensures var popped, left := AllPopped(k, q, run), Line(After(k, run), q);
            if i < |popped| then popped[i] == Line(k, q)[i]
            else i - |popped| < |left| && left[i - |popped|] == Line(k, q)[i]
  {
    hide Line, KillsNone, Possible;
    QueueLaw(k, q, run);
    var popped, left := AllPopped(k, q, run), Line(After(k, run), q);
    assert (popped + left)[i] == (Line(k, q) + AllPushed(k, q, run))[i];
  }

  // ----- dispatches -----

  /** What a step sends to the CPU. */
  function Sent(k: Kernel, a: Step): (s: seq<int>) {
    if a == Dispatch(Execute) && k.dispatcher.Holding? then [k.dispatcher.pid] else []
  }

  /** Every process sent to the CPU in a run, in order. */
  ghost function Dispatched(k: Kernel, run: seq<Step>): (s: seq<int>)
    requires Possible(k, run)
    decreases |run|
  {
    if |run| == 0 then []
    else Sent(k, run[0]) + Dispatched(Next(k, run[0]), run[1..])
  }

  function Held(k: Kernel): (s: seq<int>) {
    if k.dispatcher.Holding? then [k.dispatcher.pid] else []
  }

  ghost predicate AllFromReady(run: seq<Step>) {
    forall i :: 0 <= i < |run| ==> run[i] != Dispatch(PopAux)
  }

  lemma StepHeld(k: Kernel, a: Step)
    requires Enabled(k, a) && a != Dispatch(PopAux)
    ensures Held(k) + Popped(k, ReadyQueue, a) == Sent(k, a) + Held(Next(k, a))
  {
    hide Remove, Cut, FirstOf, FirstWaiter;
  }

  /** Without the auxiliary queue the processes sent to the CPU are exactly those taken from READY. */
  lemma {:induction false} DispatchedFromReady(k: Kernel, run: seq<Step>)
    requires Possible(k, run) && AllFromReady(run)
    ensures Held(k) + AllPopped(k, ReadyQueue, run) == Dispatched(k, run) + Held(After(k, run))
    decreases |run|
  {
    hide Next, Enabled, Popped, Held, Sent;
    if |run| > 0 {
      assert run[0] != Dispatch(PopAux);
      StepHeld(k, run[0]);
      DispatchedFromReady(Next(k, run[0]), run[1..]);
      var sent := Sent(k, run[0]);
      var next, rest := Next(k, run[0]), run[1..];
      assert Held(k) + (Popped(k, ReadyQueue, run[0]) + AllPopped(next, ReadyQueue, rest)) == (Held(k) + Popped(k, ReadyQueue, run[0])) + AllPopped(next, ReadyQueue, rest);
      assert (sent + Held(next)) + AllPopped(next, ReadyQueue, rest) == sent + (Held(next) + AllPopped(next, ReadyQueue, rest));
      assert sent + (Dispatched(next, rest) + Held(After(next, rest))) == (sent + Dispatched(next, rest)) + Held(After(next, rest));
    }
  }

  lemma {:induction false} NoAuxWithoutVrr(k: Kernel, run: seq<Step>)
    requires Inv(k) && k.planner != VRR && Possible(k, run) && AllSound(k, run)
    ensures AllFromReady(run)
    decreases |run|
  {
    hide OnePlace, NewsCounted, OneRunning, SlotsCounted, IosBlocked, Claimed, Next;
    if |run| > 0 {
      StepKeeps(k, run[0]);
      SamePlanner(k, run[0]);
      NoAuxWithoutVrr(Next(k, run[0]), run[1..]);
      assert run[0] != Dispatch(PopAux);
      assert forall i :: 1 <= i < |run| ==> run[i] == run[1..][i - 1];
    }
  }

  lemma SamePlanner(k: Kernel, a: Step)
    requires Enabled(k, a)
    ensures Next(k, a).planner == k.planner
  {
  }

  lemma {:induction false} SoundKillsNone(k: Kernel, run: seq<Step>)
    requires Possible(k, run) && AllSound(k, run)
    ensures KillsNone(ReadyQueue, run)
    decreases |run|
  {
    if |run| > 0 {
      SoundKillsNone(Next(k, run[0]), run[1..]);
      assert forall i :: 1 <= i < |run| ==> run[i] == run[1..][i - 1];
    }
  }

  /**
   Under FIFO and RR with nobody on the way to the CPU: the process at place `i` of READY is the one sent to
   the CPU after exactly `i` others, in every sound run with more than `i` dispatches.
   */
  lemma BoundedWaiting(k: Kernel, run: seq<Step>, i: nat)
    requires Inv(k) && k.planner != VRR && Possible(k, run) && AllSound(k, run)
    requires !k.dispatcher.Holding? && i < |k.readys| && i < |Dispatched(k, run)|
    ensures Dispatched(k, run)[i] == k.readys[i]
  {
    hide Inv, Possible, AllSound;
    NoAuxWithoutVrr(k, run);
    SoundKillsNone(k, run);
    DispatchedFromReady(k, run);
    ServedInOrder(k, ReadyQueue, run, i);
    assert (Held(k) + AllPopped(k, ReadyQueue, run))[i] == (Dispatched(k, run) + Held(After(k, run)))[i];
  }

  // ----- the auxiliary queue goes first -----

  /**
   Under VRR the dispatcher goes to READY only after it has seen the auxiliary queue empty, and has done nothing
   since then.
   */
  lemma {:induction false} ReadyAfterAux(k: Kernel, run: seq<Step>) returns (j: nat)
    requires Possible(k, run) && k.planner == VRR && k.dispatcher != FromReady
    requires After(k, run).dispatcher == FromReady && !After(k, run).crashed
    ensures j < |run| && run[j] == Dispatch(Choose) && Possible(k, run[..j]) && After(k, run[..j]).aux == []
    ensures forall m :: j < m < |run| ==> !run[m].Dispatch?
    decreases |run|
  {
    hide Next, Enabled;
    var front, last := run[..|run| - 1], run[|run| - 1];
    OneLess(k, run);
    SameRunPlanner(k, front);
    ToReady(After(k, front), last);
    if After(k, front).dispatcher == FromReady {
      j := ReadyAfterAux(k, front);
      assert front[..j] == run[..j];
    } else {
      j := |run| - 1;
    }
  }

  lemma ToReady(k: Kernel, a: Step)
    requires Enabled(k, a) && k.planner == VRR && Next(k, a).dispatcher == FromReady && !Next(k, a).crashed
    ensures !k.crashed && (k.dispatcher == FromReady ==> !a.Dispatch?)
    ensures k.dispatcher != FromReady ==> a == Dispatch(Choose) && k.aux == []
  {
    hide Remove, Cut, FirstOf, FirstWaiter;
  }

  lemma {:induction false} SameRunPlanner(k: Kernel, run: seq<Step>)
    requires Possible(k, run)
    ensures After(k, run).planner == k.planner
    decreases |run|
  {
    hide Next, Enabled;
    if |run| > 0 {
      SamePlanner(k, run[0]);
      SameRunPlanner(Next(k, run[0]), run[1..]);
    }
  }
}
