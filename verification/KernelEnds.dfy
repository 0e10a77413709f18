/**
 How processes end and how they come back. A process that ends is in no queue, in no list and on no CPU until its pid
 is handed out again, over all runs, with kills of every kind; a process that is woken is not lost.
 */
module KernelEnds {
  import opened CTypes
  import opened Lists
  import opened BlockedList
  import opened KernelModel
  import opened KernelInvariant
  import opened KernelRuns

  /** What survives kills of every kind: each pid is in one place, and one thread or process has the CPU. */
  ghost predicate Whole(k: Kernel) {
    OnePlace(k) && OneRunning(k)
  }

  /** The CPU gives a process back for a reason the kernel does not know. */
  predicate Drops(k: Kernel, a: Step) {
    a == Reply(Handle) && k.response.Returned? && k.response.reason == Unheard
  }

  lemma SameRunning(k: Kernel, a: Step)
    requires Enabled(k, a) && !a.Dispatch? && !a.Reply?
    ensures var r := Next(k, a);
            r.running == k.running && r.dispatcher == k.dispatcher && r.cpu == k.cpu && r.response == k.response
  {
    hide Remove, Cut, FirstOf, FirstWaiter;
  }

  lemma DispatchRunning(k: Kernel, a: DispatchStep)
    requires OneRunning(k) && CanDispatch(k, a)
    ensures OneRunning(DispatchNext(k, a))
  {
  }

  lemma ReplyRunning(k: Kernel, a: ReplyStep)
    requires OneRunning(k) && CanReply(k, a)
    ensures OneRunning(ReplyNext(k, a))
  {
  }

  lemma StepRunning(k: Kernel, a: Step)
    requires OneRunning(k) && Enabled(k, a)
    ensures OneRunning(Next(k, a))
  {
    hide AdmitNext, DispatchNext, ReplyNext, WakeNext, CreateNext, ChangeNext, KillNext;
    hide CanAdmit, CanDispatch, CanReply, CanWake, CanCreate, CanChange, CanKill;
    match a
    case Dispatch(s) => DispatchRunning(k, s);
    case Reply(s) => ReplyRunning(k, s);
    case _ => SameRunning(k, a);
  }

  /** Every step keeps each pid in one place, however processes are killed. */
  lemma StepWhole(k: Kernel, a: Step)
    requires Whole(k) && Enabled(k, a) && !Next(k, a).crashed && !Drops(k, a)
    ensures Whole(Next(k, a))
  {
    hide Places, One, OneRunning, AdmitNext, DispatchNext, ReplyNext, WakeNext, CreateNext, ChangeNext, KillNext;
    hide CanAdmit, CanDispatch, CanReply, CanWake, CanCreate, CanChange, CanKill;
    StepRunning(k, a);
    PidsStart(k, a);
    forall p
      ensures Places(Next(k, a), p) == One(1 <= p < Next(k, a).nextPid)
    {
      match a
      case Admission(s) => AdmitPlaces(k, s, p);
      case Dispatch(s) => DispatchPlaces(k, s, p);
      case Reply(s) => HandledHeard(k, s); ReplyPlaces(k, s, p);
      case Wakeup(s) => WakePlaces(k, s, p);
      case Creation(s) => CreatePlaces(k, s, p);
      case Change(s) => ChangePlaces(k, s, p);
      case Kill(s) => KillPlaces(k, s, p);
    }
  }

  lemma HandledHeard(k: Kernel, s: ReplyStep)
    requires CanReply(k, s) && !Drops(k, Reply(s))
    ensures s.Handle? ==> k.response.Returned? && k.response.reason != Unheard
  {
  }

  /** No step of the run gives a process back for a reason the kernel does not know. */
  ghost predicate Heard(k: Kernel, run: seq<Step>)
    requires Possible(k, run)
    decreases |run|
  {
    |run| == 0 || (!Drops(k, run[0]) && Heard(Next(k, run[0]), run[1..]))
  }

  lemma {:induction false} RunWhole(k: Kernel, run: seq<Step>)
    requires Whole(k) && Possible(k, run) && Heard(k, run) && !After(k, run).crashed
    ensures Whole(After(k, run))
    decreases |run|
  {
    hide Whole, Next, Enabled, Drops;
    if |run| > 0 {
      NotCrashedBefore(Next(k, run[0]), run[1..]);
      StepWhole(k, run[0]);
      RunWhole(Next(k, run[0]), run[1..]);
    }
  }

  /** From the start, over all runs, whatever is killed: until something crashes each pid is in one place. */
  lemma WholeFromStart(planner: Planner, resources: seq<string>, degree: nat, run: seq<Step>)
    requires Possible(Initial(planner, resources, degree), run) && Heard(Initial(planner, resources, degree), run)
    requires !After(Initial(planner, resources, degree), run).crashed
    ensures Whole(After(Initial(planner, resources, degree), run))
  {
    InitialInv(planner, resources, degree);
    RunWhole(Initial(planner, resources, degree), run);
  }

  // ----- the end of a process -----

  /** The process is being deleted, or its pid has been released. */
  predicate Gone(k: Kernel, p: int) {
    p in k.dying || p in k.freePids
  }

  /** The process is in no queue and no list, on no CPU and in no thread's hands, and nobody is about to queue it. */
  ghost predicate Out(k: Kernel, p: int) {
    && p !in k.news && p !in k.readys && p !in k.aux && p !in k.waking
    && (forall w :: w in k.blockeds ==> w.pid != p)
    && k.cpu != Running(p) && k.dispatcher != Holding(p) && k.shell != Making(p)
    && (k.response.Returned? ==> k.response.pid != p)
  }

  lemma GoneOut(k: Kernel, p: int)
    requires OnePlace(k) && Gone(k, p)
    ensures Out(k, p)
  {
    hide Occurs, Standing;
    assert Places(k, p) <= 1;
    OccursIn(k.dying, p);
    OccursIn(k.freePids, p);
    OccursIn(k.news, p);
    OccursIn(k.readys, p);
    OccursIn(k.aux, p);
    OccursIn(k.waking, p);
    FirstOfIff(k.blockeds, p);
  }

  /** A step that ends a process: its IO failed, it was killed, or it came back to exit. */
  predicate Ends(k: Kernel, a: Step, p: int) {
    match a
    case Wakeup(s) => s == FailIo(p)
    case Kill(s) => s.pid == p
    case Reply(s) =>
      s == Handle && k.response.Returned? && k.response.pid == p && Final(k.response.reason)
    case _ => false
  }

  lemma EndsGone(k: Kernel, a: Step, p: int)
    requires Enabled(k, a) && Ends(k, a, p) && !Next(k, a).crashed
    ensures Gone(Next(k, a), p)
  {
    hide Remove, Cut, FirstOf;
  }

  /** The pid is handed out again. */
  predicate HandsOut(k: Kernel, a: Step, p: int) {
    a == Creation(NewPid) && k.freePids != [] && k.freePids[0] == p
  }

  lemma StepGone(k: Kernel, a: Step, p: int)
    requires Enabled(k, a) && Gone(k, p) && !HandsOut(k, a, p)
    ensures Gone(Next(k, a), p)
  {
    hide Cut, FirstOf, FirstWaiter, Occurs, Remove;
    match a
    case Wakeup(s) => if s.ReleaseDead? && s.pid != p { RemoveOther(k.dying, s.pid, p); }
    case _ =>
  }

  lemma RemoveOther(s: seq<int>, q: int, p: int)
    requires q != p
    ensures p in Remove(s, q) <==> p in s
  {
    OccursRemove(s, q, p);
    OccursIn(s, p);
    OccursIn(Remove(s, q), p);
  }

  /** No step of the run hands the pid out, and the CPU gives known reasons. */
  ghost predicate Keeps(k: Kernel, run: seq<Step>, p: int)
    requires Possible(k, run)
    decreases |run|
  {
    |run| == 0 || (!HandsOut(k, run[0], p) && !Drops(k, run[0]) && Keeps(Next(k, run[0]), run[1..], p))
  }

  lemma {:induction false} GoneStays(k: Kernel, run: seq<Step>, p: int)
    requires Whole(k) && Gone(k, p) && Possible(k, run) && Keeps(k, run, p) && !After(k, run).crashed
    ensures Gone(After(k, run), p) && Whole(After(k, run))
    decreases |run|
  {
    hide Whole, Gone, Next, Enabled, HandsOut, Drops;
    if |run| > 0 {
      NotCrashedBefore(Next(k, run[0]), run[1..]);
      StepGone(k, run[0], p);
      StepWhole(k, run[0]);
      GoneStays(Next(k, run[0]), run[1..], p);
    }
  }

  lemma NotCrashedBefore(k: Kernel, run: seq<Step>)
    requires Possible(k, run) && !After(k, run).crashed
    ensures !k.crashed
  {
  }

  /**
   A process that has ended stays out: whatever runs, returns, is woken or killed afterwards, its pid is with those
   being deleted or those released, and nowhere else, until it is handed out again.
   */
  lemma EndedStaysOut(k: Kernel, a: Step, p: int, run: seq<Step>)
    requires Whole(k) && Enabled(k, a) && Ends(k, a, p)
    requires Possible(Next(k, a), run) && Keeps(Next(k, a), run, p) && !After(Next(k, a), run).crashed
    ensures var r := After(Next(k, a), run);
            (p in r.dying || p in r.freePids) && Out(r, p)
  {
    hide Whole, Next, Enabled, Out, Keeps, Possible, After;
    var next := Next(k, a);
    NotCrashedBefore(next, run);
    EndsHeard(k, a, p);
    EndsGone(k, a, p);
    StepWhole(k, a);
    GoneStays(next, run, p);
    WholePlaced(After(next, run));
    GoneOut(After(next, run), p);
  }

  lemma EndsHeard(k: Kernel, a: Step, p: int)
    requires Ends(k, a, p)
    ensures !Drops(k, a)
  {
  }

  lemma WholePlaced(k: Kernel)
    requires Whole(k)
    ensures OnePlace(k)
  {
  }

  /** Before, it was where the step takes it from. */
  lemma EndsFrom(k: Kernel, a: Step, p: int)
    requires Whole(k) && Enabled(k, a) && Ends(k, a, p) && !Next(k, a).crashed
    ensures match a
            case Wakeup(s) => exists w :: w in k.blockeds && w.pid == p
            case Kill(s) =>
              (match s
               case KillNew(_) => p in k.news
               case KillReady(_) => p in k.readys
               case KillAux(_) => p in k.aux
               case KillBlocked(_) => exists w :: w in k.blockeds && w.pid == p)
            case _ => k.response.Returned? && k.response.pid == p
    ensures !Gone(k, p)
  {
    hide Remove, Cut, Occurs, Standing, FirstOf;
    assert Places(k, p) <= 1;
    OccursIn(k.dying, p);
    OccursIn(k.freePids, p);
    OccursIn(k.news, p);
    OccursIn(k.readys, p);
    OccursIn(k.aux, p);
    var i := FirstOf(k.blockeds, p);
    if i != -1 {
      assert k.blockeds[i] in k.blockeds;
      StandsAt(k.blockeds, i);
    }
  }

  // ----- the return of a process -----

  /** A step that takes a process out of the blocked list to let it go on. */
  predicate Returns(k: Kernel, a: Step, p: int) {
    a.Wakeup?
    && match a.wake
       case FinishIo(pid) => pid == p
       case TakeWaiter(name) => var line := WaitLine(k.blockeds, name); line != [] && line[0] == p
       case _ => false
  }

  predicate Queues(a: Step, p: int) {
    a == Wakeup(PushReady(p)) || a == Wakeup(PushAux(p))
  }

  /** It stays with the thread that woke it until that thread puts it in a queue. */
  lemma StepWaking(k: Kernel, a: Step, p: int)
    requires Enabled(k, a) && p in k.waking && !Queues(a, p)
    ensures p in Next(k, a).waking
  {
    hide Cut, FirstOf, FirstWaiter, Occurs, Remove;
    match a
    case Wakeup(s) =>
      if s.PushReady? || s.PushAux? { RemoveOther(k.waking, s.pid, p); }
    case _ =>
  }

  lemma {:induction false} WokenStays(k: Kernel, run: seq<Step>, p: int)
    requires p in k.waking && Possible(k, run) && forall i :: 0 <= i < |run| ==> !Queues(run[i], p)
    ensures p in After(k, run).waking
    decreases |run|
  {
    hide Next, Enabled, Queues;
    if |run| > 0 {
      StepWaking(k, run[0], p);
      assert forall i :: 0 <= i < |run| - 1 ==> run[1..][i] == run[i + 1];
      WokenStays(Next(k, run[0]), run[1..], p);
    }
  }

  /**
   A process whose IO is done, or whose resource is free, is not lost: until it is put at the end of READY or of the
   auxiliary queue a thread has it in its hands.
   */
  lemma ReturnsNotLost(k: Kernel, a: Step, p: int, run: seq<Step>)
    requires Enabled(k, a) && Returns(k, a, p) && !Next(k, a).crashed && Possible(Next(k, a), run)
    ensures (exists i :: 0 <= i < |run| && Queues(run[i], p)) || p in After(Next(k, a), run).waking
  {
    hide Possible, After, Queues;
    ReturnsWaking(k, a, p);
    if forall i :: 0 <= i < |run| ==> !Queues(run[i], p) {
      WokenStays(Next(k, a), run, p);
    }
  }

  lemma ReturnsWaking(k: Kernel, a: Step, p: int)
    requires Enabled(k, a) && Returns(k, a, p) && !Next(k, a).crashed
    ensures p in Next(k, a).waking
  {
    hide Remove, Cut, FirstOf, FirstWaiter, WaitLine;
    match a.wake
    case TakeWaiter(name) => FirstIsHead(k.blockeds, name);
    case _ =>
  }
}
