/** What every step of the kernel keeps, and which steps do not. */
module KernelInvariant {
  import opened CTypes
  import opened Lists
  import opened BlockedList
  import opened KernelModel

  // ----- one part of the invariant, one group of steps -----

  lemma InBlocked(k: Kernel, pid: int)
    requires IosBlocked(k) && pid in k.ios
    ensures FirstOf(k.blockeds, pid) != -1
  {
    OccursIn(k.ios, pid);
    FirstOfIff(k.blockeds, pid);
  }

  lemma HasWaiter(k: Kernel, name: string)
    requires Claimed(k) && name in k.seen
    ensures FirstWaiter(k.blockeds, name) != -1
  {
    OccursIn(k.seen, name);
    FirstWaiterIff(k.blockeds, name);
  }

  lemma AdmitCounts(k: Kernel, a: AdmitStep)
    requires Inv(k) && CanAdmit(k, a)
    ensures var r := AdmitNext(k, a);
            !r.crashed && NewsCounted(r) && ReadysCounted(r) && OneRunning(r) && SlotsCounted(r)
  {
    hide OnePlace, IosBlocked, Claimed;
  }

  lemma AdmitPlaces(k: Kernel, a: AdmitStep, p: int)
    requires CanAdmit(k, a) && !AdmitNext(k, a).crashed
    requires Places(k, p) == One(1 <= p < k.nextPid) && k.nextPid >= 1
    ensures Places(AdmitNext(k, a), p) == One(1 <= p < AdmitNext(k, a).nextPid) && AdmitNext(k, a).nextPid >= 1
  {
    hide Occurs, Standing;
    OccursTail(k.news, p);
    if a == Admit { OccursAppend(k.readys, k.news[0], p); }
  }

  lemma DispatchCounts(k: Kernel, a: DispatchStep)
    requires Inv(k) && CanDispatch(k, a)
    ensures var r := DispatchNext(k, a);
            !r.crashed && NewsCounted(r) && ReadysCounted(r) && OneRunning(r) && SlotsCounted(r)
  {
    hide NewsTokens, Allowance, OnePlace, IosBlocked, Claimed;
  }

  lemma DispatchPlaces(k: Kernel, a: DispatchStep, p: int)
    requires OneRunning(k) && CanDispatch(k, a) && !DispatchNext(k, a).crashed
    requires Places(k, p) == One(1 <= p < k.nextPid) && k.nextPid >= 1
    ensures Places(DispatchNext(k, a), p) == One(1 <= p < DispatchNext(k, a).nextPid) && DispatchNext(k, a).nextPid >= 1
  {
    hide Occurs, Standing;
    OccursTail(k.readys, p);
    OccursTail(k.aux, p);
  }

  lemma ReplyCounts(k: Kernel, a: ReplyStep)
    requires Inv(k) && CanReply(k, a)
    requires a.Handle? ==> k.response.reason != Unheard
    ensures var r := ReplyNext(k, a);
            !r.crashed && NewsCounted(r) && ReadysCounted(r) && OneRunning(r) && SlotsCounted(r)
  {
    hide NewsTokens, Allowance, OnePlace, IosBlocked, Claimed;
  }

  lemma ReplyPlaces(k: Kernel, a: ReplyStep, p: int)
    requires CanReply(k, a)
    requires a.Handle? ==> k.response.reason != Unheard
    requires Places(k, p) == One(1 <= p < k.nextPid) && k.nextPid >= 1
    ensures Places(ReplyNext(k, a), p) == One(1 <= p < ReplyNext(k, a).nextPid) && ReplyNext(k, a).nextPid >= 1
  {
    hide Occurs, Standing;
    if a == Handle {
      var pid := k.response.pid;
      OccursAppend(k.freePids, pid, p);
      OccursAppend(k.readys, pid, p);
      match k.response.reason
      case Io(operation) => BlockedAppend(k.blockeds, Waiter(pid, operation), "", p);
      case Wait(name) => BlockedAppend(k.blockeds, Waiter(pid, name), "", p);
      case _ =>
    }
  }

  lemma WakeCounts(k: Kernel, a: WakeStep)
    requires Inv(k) && CanWake(k, a)
    ensures var r := WakeNext(k, a);
            !r.crashed && NewsCounted(r) && ReadysCounted(r) && OneRunning(r) && SlotsCounted(r)
  {
    hide NewsTokens, Allowance, ReadyTokens, ThreadSlots, WithCpu, OnePlace, IosBlocked, Claimed, Remove, Cut;
    match a
    case FinishIo(pid) => InBlocked(k, pid);
    case FailIo(pid) => InBlocked(k, pid);
    case TakeWaiter(name) => HasWaiter(k, name);
    case PushReady(pid) => OccursRemove(k.waking, pid, pid);
    case PushAux(pid) => OccursRemove(k.waking, pid, pid);
    case ReleaseDead(pid) => OccursRemove(k.dying, pid, pid);
    case _ =>
  }

  lemma WakePlaces(k: Kernel, a: WakeStep, p: int)
    requires CanWake(k, a) && !WakeNext(k, a).crashed
    requires Places(k, p) == One(1 <= p < k.nextPid) && k.nextPid >= 1
    ensures Places(WakeNext(k, a), p) == One(1 <= p < WakeNext(k, a).nextPid) && WakeNext(k, a).nextPid >= 1
  {
    hide Occurs, Remove, Standing, FirstOf, FirstWaiter, Cut;
    match a
    case FinishIo(pid) => BlockedCut(k.blockeds, FirstOf(k.blockeds, pid), "", p); OccursAppend(k.waking, pid, p);
    case FailIo(pid) => BlockedCut(k.blockeds, FirstOf(k.blockeds, pid), "", p); OccursAppend(k.dying, pid, p);
    case TakeWaiter(name) =>
      var i := FirstWaiter(k.blockeds, name);
      BlockedCut(k.blockeds, i, "", p);
      OccursAppend(k.waking, k.blockeds[i].pid, p);
    case PushReady(pid) => OccursRemove(k.waking, pid, p); OccursAppend(k.readys, pid, p);
    case PushAux(pid) => OccursRemove(k.waking, pid, p); OccursAppend(k.aux, pid, p);
    case ReleaseDead(pid) => OccursRemove(k.dying, pid, p); OccursAppend(k.freePids, pid, p);
    case _ =>
  }

  lemma CreateQueues(k: Kernel, a: CreateStep)
    requires NewsCounted(k) && ReadysCounted(k) && !k.crashed && CanCreate(k, a)
    ensures var r := CreateNext(k, a);
            NewsCounted(r) && ReadysCounted(r) && !r.crashed
  {
    hide ReadyTokens;
  }

  lemma CreateSlots(k: Kernel, a: CreateStep)
    requires SlotsCounted(k) && OneRunning(k) && CanCreate(k, a)
    ensures SlotsCounted(CreateNext(k, a)) && OneRunning(CreateNext(k, a))
  {
    hide ThreadSlots, WithCpu;
  }

  lemma CreatePlaces(k: Kernel, a: CreateStep, p: int)
    requires CanCreate(k, a) && Places(k, p) == One(1 <= p < k.nextPid) && k.nextPid >= 1
    ensures Places(CreateNext(k, a), p) == One(1 <= p < CreateNext(k, a).nextPid) && CreateNext(k, a).nextPid >= 1
  {
    hide Occurs, Standing;
    OccursTail(k.freePids, p);
    if k.shell.Making? { OccursAppend(k.news, k.shell.pid, p); }
  }

  lemma ChangeQueues(k: Kernel, a: DegreeStep)
    requires NewsCounted(k) && ReadysCounted(k) && !k.crashed && CanChange(k, a)
    ensures var r := ChangeNext(k, a);
            NewsCounted(r) && ReadysCounted(r) && !r.crashed
  {
  }

  lemma ChangeSlots(k: Kernel, a: DegreeStep)
    requires SlotsCounted(k) && OneRunning(k) && CanChange(k, a)
    ensures SlotsCounted(ChangeNext(k, a)) && OneRunning(ChangeNext(k, a))
  {
    hide ThreadSlots, WithCpu;
  }

  lemma ChangePlaces(k: Kernel, a: DegreeStep, p: int)
    requires CanChange(k, a) && Places(k, p) == One(1 <= p < k.nextPid) && k.nextPid >= 1
    ensures Places(ChangeNext(k, a), p) == One(1 <= p < ChangeNext(k, a).nextPid) && ChangeNext(k, a).nextPid >= 1
  {
    hide Occurs, Standing;
  }

  lemma KillCounts(k: Kernel, a: KillStep)
    requires Inv(k) && CanKill(k, a) && a.KillBlocked?
    ensures var r := KillNext(k, a);
            !r.crashed && NewsCounted(r) && ReadysCounted(r) && OneRunning(r) && SlotsCounted(r)
  {
    hide NewsTokens, Allowance, ReadyTokens, ThreadSlots, WithCpu, OnePlace, IosBlocked, Claimed, Cut;
  }

  lemma KillPlaces(k: Kernel, a: KillStep, p: int)
    requires CanKill(k, a)
    requires Places(k, p) == One(1 <= p < k.nextPid) && k.nextPid >= 1
    ensures Places(KillNext(k, a), p) == One(1 <= p < KillNext(k, a).nextPid) && KillNext(k, a).nextPid >= 1
  {
    hide Occurs, Standing, FirstOf, Cut, Remove;
    OccursAppend(k.dying, a.pid, p);
    match a
    case KillNew(pid) => OccursRemove(k.news, pid, p);
    case KillReady(pid) => OccursRemove(k.readys, pid, p);
    case KillAux(pid) => OccursRemove(k.aux, pid, p);
    case KillBlocked(pid) => BlockedCut(k.blockeds, FirstOf(k.blockeds, pid), "", p);
  }

  // ----- interfaces and claims -----

  /** A process that comes back is in no list: an interface owes it nothing. */
  lemma NewcomerFree(k: Kernel)
    requires OnePlace(k) && IosBlocked(k) && k.response.Returned?
    ensures k.response.pid !in k.ios && forall w :: w in k.blockeds ==> w.pid != k.response.pid
  {
    hide Occurs, Standing;
    var p := k.response.pid;
    assert Places(k, p) <= 1;
    OccursIn(k.ios, p);
    FirstOfIff(k.blockeds, p);
  }

  lemma ReplyIos(k: Kernel, a: ReplyStep)
    requires OnePlace(k) && IosBlocked(k) && Claimed(k) && CanReply(k, a)
    requires a.Handle? && k.response.reason.Io? ==> k.response.reason.operation !in k.resources
    ensures IosBlocked(ReplyNext(k, a)) && Claimed(ReplyNext(k, a))
  {
    hide Occurs, Standing, WaitersIn, OnePlace;
    if a == Handle && (k.response.reason.Io? || k.response.reason.Wait?) {
      var pid, reason := k.response.pid, k.response.reason;
      var w := Waiter(pid, if reason.Io? then reason.operation else reason.name);
      NewcomerFree(k);
      forall p
        ensures Occurs(k.ios + [pid], p) <= Standing(k.blockeds + [w], p)
        ensures Occurs(k.ios, p) <= Standing(k.blockeds + [w], p)
      {
        OccursAppend(k.ios, pid, p);
        BlockedAppend(k.blockeds, w, "", p);
      }
      forall x
        ensures WaitersIn(k.blockeds + [w], x) >= WaitersIn(k.blockeds, x)
      {
        BlockedAppend(k.blockeds, w, x, 0);
      }
    }
  }

  /** A process leaves the list: the interfaces' answers and the claims of threads that are left. */
  lemma CutIos(k: Kernel, i: nat, ios: seq<int>, seen: seq<string>)
    requires OnePlace(k) && IosBlocked(k) && Claimed(k) && i < |k.blockeds|
    requires ios == Remove(k.ios, k.blockeds[i].pid)
    requires seen == k.seen ==> Unclaimed(k, k.blockeds[i].info)
    requires seen == k.seen || (seen == Remove(k.seen, k.blockeds[i].info) && k.blockeds[i].info in k.seen)
    ensures forall p :: Occurs(ios, p) <= Standing(Cut(k.blockeds, i), p)
    ensures forall w :: w in Cut(k.blockeds, i) && w.pid in ios ==> w.info !in k.resources
    ensures forall x :: Occurs(seen, x) <= WaitersIn(Cut(k.blockeds, i), x)
    ensures forall x :: x in seen ==> x in k.resources
  {
    hide Occurs, Standing, WaitersIn, OnePlace, Cut, Remove;
    var w := k.blockeds[i];
    forall p
      ensures Occurs(ios, p) <= Standing(Cut(k.blockeds, i), p)
    {
      BlockedCut(k.blockeds, i, "", p);
      OccursRemove(k.ios, w.pid, p);
      OccursIn(k.ios, w.pid);
      StandingOnce(k, p);
    }
    RemoveIn(k.ios, w.pid);
    RemoveIn(k.seen, w.info);
    forall x
      ensures Occurs(seen, x) <= WaitersIn(Cut(k.blockeds, i), x)
    {
      BlockedCut(k.blockeds, i, x, 0);
      OccursRemove(k.seen, w.info, x);
    }
  }

  lemma StandingOnce(k: Kernel, p: int)
    requires OnePlace(k)
    ensures Standing(k.blockeds, p) <= 1
  {
    hide Occurs, Standing;
    assert Places(k, p) <= 1;
  }

  lemma WakeIos(k: Kernel, a: WakeStep)
    requires OnePlace(k) && IosBlocked(k) && Claimed(k) && CanWake(k, a) && !WakeNext(k, a).crashed
    requires a.SeeWaiter? ==> Unclaimed(k, a.name)
    ensures IosBlocked(WakeNext(k, a)) && Claimed(WakeNext(k, a))
  {
    hide Occurs, Standing, WaitersIn, OnePlace, Remove, Cut, FirstOf, FirstWaiter;
    match a
    case FinishIo(pid) => AnsweredIos(k, pid);
    case FailIo(pid) => AnsweredIos(k, pid);
    case SeeWaiter(name) =>
      forall x
        ensures Occurs(k.seen + [name], x) <= WaitersIn(k.blockeds, x)
      {
        OccursAppend(k.seen, name, x);
      }
    case TakeWaiter(name) =>
      var i := FirstWaiter(k.blockeds, name);
      assert k.blockeds[i] in k.blockeds;
      RemoveAt(k.ios, k.blockeds[i].pid, |k.ios|);
      OccursIn(k.seen, name);
      OccursRemove(k.seen, name, name);
      CutIos(k, i, k.ios, Remove(k.seen, name));
    case _ =>
  }

  lemma AnsweredIos(k: Kernel, pid: int)
    requires OnePlace(k) && IosBlocked(k) && Claimed(k) && pid in k.ios && FirstOf(k.blockeds, pid) != -1
    ensures var i := FirstOf(k.blockeds, pid);
            && (forall p :: Occurs(Remove(k.ios, pid), p) <= Standing(Cut(k.blockeds, i), p))
            && (forall w :: w in Cut(k.blockeds, i) && w.pid in Remove(k.ios, pid) ==> w.info !in k.resources)
            && (forall x :: Occurs(k.seen, x) <= WaitersIn(Cut(k.blockeds, i), x))
  {
    hide Occurs, Standing, WaitersIn, OnePlace, Remove, Cut, FirstOf;
    var i := FirstOf(k.blockeds, pid);
    assert k.blockeds[i] in k.blockeds;
    StandsAt(k.blockeds, i);
    OccursIn(k.seen, k.blockeds[i].info);
    CutIos(k, i, Remove(k.ios, pid), k.seen);
  }

  lemma KillIos(k: Kernel, a: KillStep)
    requires OnePlace(k) && IosBlocked(k) && Claimed(k) && CanKill(k, a) && a.KillBlocked? && a.pid !in k.ios
    requires Unclaimed(k, k.blockeds[FirstOf(k.blockeds, a.pid)].info)
    ensures IosBlocked(KillNext(k, a)) && Claimed(KillNext(k, a))
  {
    hide Occurs, Standing, WaitersIn, OnePlace, Remove, Cut, FirstOf;
    RemoveAt(k.ios, a.pid, |k.ios|);
    CutIos(k, FirstOf(k.blockeds, a.pid), k.ios, k.seen);
  }

  // ----- every step -----

  lemma StepCounts(k: Kernel, a: Step)
    requires Inv(k) && Enabled(k, a) && Sound(k, a)
    ensures var r := Next(k, a);
            !r.crashed && NewsCounted(r) && ReadysCounted(r) && OneRunning(r) && SlotsCounted(r)
  {
    hide OnePlace, NewsCounted, ReadysCounted, OneRunning, SlotsCounted, IosBlocked, Claimed, Unclaimed;
    hide CanAdmit, CanDispatch, CanReply, CanWake, CanCreate, CanChange, CanKill;
    hide AdmitNext, DispatchNext, ReplyNext, WakeNext, CreateNext, ChangeNext, KillNext;
    match a
    case Admission(s) => AdmitCounts(k, s);
    case Dispatch(s) => DispatchCounts(k, s);
    case Reply(s) => if s.Handle? { Answered(k, s); } ReplyCounts(k, s);
    case Wakeup(s) => WakeCounts(k, s);
    case Creation(s) => CreateQueues(k, s); CreateSlots(k, s);
    case Change(s) => ChangeQueues(k, s); ChangeSlots(k, s);
    case Kill(s) => KillCounts(k, s);
  }

  lemma SameIos(k: Kernel, r: Kernel)
    requires r.blockeds == k.blockeds && r.ios == k.ios && r.seen == k.seen && r.resources == k.resources
    requires IosBlocked(k) && Claimed(k)
    ensures IosBlocked(r) && Claimed(r)
  {
  }

  lemma StepIos(k: Kernel, a: Step)
    requires Inv(k) && Enabled(k, a) && Sound(k, a) && !Next(k, a).crashed
    ensures IosBlocked(Next(k, a)) && Claimed(Next(k, a))
  {
    hide OnePlace, NewsCounted, ReadysCounted, OneRunning, SlotsCounted, IosBlocked, Claimed, Unclaimed;
    hide CanAdmit, CanDispatch, CanWake, CanCreate, CanChange, WakeNext, KillNext, ReplyNext;
    match a
    case Reply(s) => ReplyIos(k, s);
    case Wakeup(s) => WakeIos(k, s);
    case Kill(s) => KillIos(k, s);
    case _ => SameIos(k, Next(k, a));
  }

  lemma StepPlaces(k: Kernel, a: Step)
    requires Inv(k) && Enabled(k, a) && Sound(k, a) && !Next(k, a).crashed
    ensures OnePlace(Next(k, a))
  {
    hide NewsCounted, ReadysCounted, OneRunning, SlotsCounted, IosBlocked, Claimed, Places, One;
    hide AdmitNext, DispatchNext, ReplyNext, WakeNext, CreateNext, ChangeNext, KillNext;
    hide CanAdmit, CanDispatch, CanReply, CanWake, CanCreate, CanChange, CanKill;
    PidsStart(k, a);
    forall p
      ensures Places(Next(k, a), p) == One(1 <= p < Next(k, a).nextPid)
    {
      match a
      case Admission(s) => AdmitPlaces(k, s, p);
      case Dispatch(s) => DispatchPlaces(k, s, p);
      case Reply(s) => if s.Handle? { Answered(k, s); } ReplyPlaces(k, s, p);
      case Wakeup(s) => WakePlaces(k, s, p);
      case Creation(s) => CreatePlaces(k, s, p);
      case Change(s) => ChangePlaces(k, s, p);
      case Kill(s) => KillPlaces(k, s, p);
    }
  }

  lemma Answered(k: Kernel, a: ReplyStep)
    requires CanReply(k, a) && Sound(k, Reply(a)) && a.Handle?
    ensures k.response.Returned? && k.response.reason != Unheard
  {
  }

  lemma PidsStart(k: Kernel, a: Step)
    requires Enabled(k, a) && k.nextPid >= 1
    ensures Next(k, a).nextPid >= 1
  {
  }

  /** Every sound step keeps the invariant, whatever the other threads are doing. */
  lemma StepKeeps(k: Kernel, a: Step)
    requires Inv(k) && Enabled(k, a) && Sound(k, a)
    ensures Inv(Next(k, a))
  {
    hide OnePlace, NewsCounted, ReadysCounted, OneRunning, SlotsCounted, IosBlocked, Claimed, Next, Enabled, Sound;
    StepCounts(k, a);
    StepIos(k, a);
    StepPlaces(k, a);
  }

  /** A kill of a blocked process that an interface or a thread counts on: there is one too few for them. */
  lemma KillBlockedBreaks(k: Kernel, pid: int)
    requires Inv(k) && CanKill(k, KillBlocked(pid)) && !Sound(k, Kill(KillBlocked(pid)))
    ensures !IosBlocked(KillNext(k, KillBlocked(pid))) || !Claimed(KillNext(k, KillBlocked(pid)))
  {
    hide Occurs, Standing, WaitersIn, OnePlace, NewsCounted, ReadysCounted, OneRunning, SlotsCounted, Cut, FirstOf;
    var i := FirstOf(k.blockeds, pid);
    var name := k.blockeds[i].info;
    BlockedCut(k.blockeds, i, name, pid);
    OccursIn(k.ios, pid);
    StandingOnce(k, pid);
    assert Occurs(k.ios, pid) <= Standing(k.blockeds, pid);
    assert Occurs(k.seen, name) <= WaitersIn(k.blockeds, name);
  }

  /** An unsound step breaks it: a counter or a claim has nobody behind it, or a process is nowhere. */
  lemma StepBreaks(k: Kernel, a: Step)
    requires Inv(k) && Enabled(k, a) && !Sound(k, a)
    ensures !Inv(Next(k, a))
  {
    hide Occurs, Remove, SlotsCounted, Standing, WaitersIn;
    match a
    case Reply(s) =>
      if k.response.reason == Unheard {
        assert Places(k, k.response.pid) == 1;
        assert Places(Next(k, a), k.response.pid) == 0;
      } else {
        var w := Waiter(k.response.pid, k.response.reason.operation);
        assert w in Next(k, a).blockeds;
      }
    case Wakeup(s) => OccursAppend(k.seen, s.name, s.name);
    case Kill(s) =>
      match s
      case KillNew(pid) => OccursRemove(k.news, pid, pid);
      case KillReady(pid) => OccursRemove(k.readys, pid, pid);
      case KillAux(pid) => OccursRemove(k.aux, pid, pid);
      case KillBlocked(pid) => KillBlockedBreaks(k, pid);
  }

  /** Exactly the sound steps keep the kernel's counters, queues and claims in agreement. */
  lemma StepKeepsIff(k: Kernel, a: Step)
    requires Inv(k) && Enabled(k, a)
    ensures Inv(Next(k, a)) <==> Sound(k, a)
  {
    hide Inv, Next, Enabled, Sound;
    if Sound(k, a) {
      StepKeeps(k, a);
    } else {
      StepBreaks(k, a);
    }
  }
}
