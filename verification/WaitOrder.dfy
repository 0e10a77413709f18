/** Processes that wait for a resource are woken in the order in which they were blocked, over all runs. */
module WaitOrder {
  import opened Lists
  import opened BlockedList
  import opened KernelModel
  import opened KernelInvariant
  import opened KernelRuns

  /** What a step takes from the front of the line for a resource. */
  function Woken(k: Kernel, x: string, a: Step): (s: seq<int>) {
    var line := WaitLine(k.blockeds, x);
    if a == Wakeup(TakeWaiter(x)) && line != [] then [line[0]] else []
  }

  /** What a step puts at the end of it. */
  function Stopped(k: Kernel, x: string, a: Step): (s: seq<int>) {
    if a == Reply(Handle) && k.response.Returned? && k.response.reason == Wait(x) then [k.response.pid] else []
  }

  /** A kill of a process that waits for the resource. */
  predicate KillsWaiter(k: Kernel, x: string, a: Step) {
    a.Kill? && a.kill.KillBlocked?
    && var i := FirstOf(k.blockeds, a.kill.pid);
       i != -1 && k.blockeds[i].info == x
  }

  /** The line moves up by the one that is woken, and who is woken is the one at its head. */
  lemma StepLine(k: Kernel, x: string, a: Step)
    requires Inv(k) && x in k.resources && Enabled(k, a) && Sound(k, a) && !KillsWaiter(k, x, a)
    ensures Woken(k, x, a) + WaitLine(Next(k, a).blockeds, x) == WaitLine(k.blockeds, x) + Stopped(k, x, a)
    ensures a == Wakeup(TakeWaiter(x)) ==> Woken(k, x, a) != [] && Next(k, a).waking == k.waking + Woken(k, x, a)
  {
    hide OnePlace, NewsCounted, ReadysCounted, OneRunning, SlotsCounted, WaitLine, FirstWaiter, FirstOf, Cut, Remove;
    match a
    case Reply(s) =>
      if s == Handle && k.response.reason.Io? {
        LineAppend(k.blockeds, Waiter(k.response.pid, k.response.reason.operation), x);
      }
      if s == Handle && k.response.reason.Wait? {
        LineAppend(k.blockeds, Waiter(k.response.pid, k.response.reason.name), x);
      }
    case Wakeup(s) => WakeLine(k, x, s);
    case Kill(s) => LineCutOther(k.blockeds, FirstOf(k.blockeds, s.pid), x);
    case _ =>
  }

  lemma WakeLine(k: Kernel, x: string, a: WakeStep)
    requires Inv(k) && x in k.resources && CanWake(k, a)
    ensures Woken(k, x, Wakeup(a)) + WaitLine(WakeNext(k, a).blockeds, x) == WaitLine(k.blockeds, x)
    ensures a == TakeWaiter(x) ==>
              Woken(k, x, Wakeup(a)) != [] && WakeNext(k, a).waking == k.waking + Woken(k, x, Wakeup(a))
  {
    hide OnePlace, NewsCounted, ReadysCounted, OneRunning, SlotsCounted, WaitLine, FirstWaiter, FirstOf, Cut, Remove;
    match a
    case FinishIo(pid) => AnswerLine(k, x, pid);
    case FailIo(pid) => AnswerLine(k, x, pid);
    case TakeWaiter(name) =>
      HasWaiter(k, name);
      if name == x {
        FirstIsHead(k.blockeds, x);
      } else {
        LineCutOther(k.blockeds, FirstWaiter(k.blockeds, name), x);
      }
    case _ =>
  }

  /** A process an interface works for waits for no resource. */
  lemma AnswerLine(k: Kernel, x: string, pid: int)
    requires IosBlocked(k) && x in k.resources && pid in k.ios
    ensures var i := FirstOf(k.blockeds, pid);
            i != -1 && k.blockeds[i].info != x && WaitLine(Cut(k.blockeds, i), x) == WaitLine(k.blockeds, x)
  {
    hide WaitLine, FirstOf, Cut, Occurs, Standing;
    InBlocked(k, pid);
    var i := FirstOf(k.blockeds, pid);
    assert k.blockeds[i] in k.blockeds;
    LineCutOther(k.blockeds, i, x);
  }

  // ----- runs -----

  /** No step of the run kills a process that waits for the resource. */
  ghost predicate Spares(k: Kernel, x: string, run: seq<Step>)
    requires Possible(k, run)
    decreases |run|
  {
    |run| == 0 || (!KillsWaiter(k, x, run[0]) && Spares(Next(k, run[0]), x, run[1..]))
  }

  ghost function AllWoken(k: Kernel, x: string, run: seq<Step>): (s: seq<int>)
    requires Possible(k, run)
    decreases |run|
  {
    if |run| == 0 then [] else Woken(k, x, run[0]) + AllWoken(Next(k, run[0]), x, run[1..])
  }

  ghost function AllStopped(k: Kernel, x: string, run: seq<Step>): (s: seq<int>)
    requires Possible(k, run)
    decreases |run|
  {
    if |run| == 0 then [] else Stopped(k, x, run[0]) + AllStopped(Next(k, run[0]), x, run[1..])
  }

  lemma SameResources(k: Kernel, a: Step)
    requires Enabled(k, a)
    ensures Next(k, a).resources == k.resources
  {
  }

  /** Who has been woken and who still waits are those who waited and those who came to wait, in the same order. */
  lemma {:induction false} WaitLaw(k: Kernel, x: string, run: seq<Step>)
    requires Inv(k) && x in k.resources && Possible(k, run) && AllSound(k, run) && Spares(k, x, run)
    ensures AllWoken(k, x, run) + WaitLine(After(k, run).blockeds, x) == WaitLine(k.blockeds, x) + AllStopped(k, x, run)
    decreases |run|
  {
    hide Inv, Next, Enabled, Sound, Woken, Stopped, KillsWaiter, WaitLine;
    if |run| > 0 {
      var next, rest := Next(k, run[0]), run[1..];
      StepLine(k, x, run[0]);
      StepKeeps(k, run[0]);
      SameResources(k, run[0]);
      WaitLaw(next, x, rest);
      Regroup(Woken(k, x, run[0]), AllWoken(next, x, rest), WaitLine(After(next, rest).blockeds, x),
              WaitLine(next.blockeds, x), AllStopped(next, x, rest), WaitLine(k.blockeds, x), Stopped(k, x, run[0]));
    }
  }

  /**
   The process at place `i` of the line for a resource is woken after exactly `i` others, whoever comes to wait and
   whatever else happens meanwhile; until then it stands that many places nearer.
   */
  lemma WokenInOrder(k: Kernel, x: string, run: seq<Step>, i: nat)
    requires Inv(k) && x in k.resources && Possible(k, run) && AllSound(k, run) && Spares(k, x, run)
    requires i < |WaitLine(k.blockeds, x)|
    ensures var woken, left := AllWoken(k, x, run), WaitLine(After(k, run).blockeds, x);
            if i < |woken| then woken[i] == WaitLine(k.blockeds, x)[i]
            else i - |woken| < |left| && left[i - |woken|] == WaitLine(k.blockeds, x)[i]
  {
    hide Inv, WaitLine, Possible, AllSound, Spares;
    WaitLaw(k, x, run);
    var woken, left := AllWoken(k, x, run), WaitLine(After(k, run).blockeds, x);
    assert (woken + left)[i] == (WaitLine(k.blockeds, x) + AllStopped(k, x, run))[i];
  }
}
