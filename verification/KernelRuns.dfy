/** Runs of the kernel over all interleavings: safety, what it means to stand still, and what kills leave behind. */
module KernelRuns {
  import opened Lists
  import opened BlockedList
  import opened KernelModel
  import opened KernelInvariant

  ghost predicate Possible(k: Kernel, run: seq<Step>)
    decreases |run|
  {
    |run| == 0 || (Enabled(k, run[0]) && Possible(Next(k, run[0]), run[1..]))
  }

  ghost function After(k: Kernel, run: seq<Step>): (r: Kernel)
    requires Possible(k, run)
    decreases |run|
  {
    if |run| == 0 then k else After(Next(k, run[0]), run[1..])
  }

  /** Every step of the run is sound where it is taken. */
  ghost predicate AllSound(k: Kernel, run: seq<Step>)
    requires Possible(k, run)
    decreases |run|
  {
    |run| == 0 || (Sound(k, run[0]) && AllSound(Next(k, run[0]), run[1..]))
  }

  lemma InitialInv(planner: Planner, resources: seq<string>, degree: nat)
    ensures Inv(Initial(planner, resources, degree))
  {
  }

  lemma {:induction false} RunKeeps(k: Kernel, run: seq<Step>)
    requires Inv(k) && Possible(k, run) && AllSound(k, run)
    ensures Inv(After(k, run))
    decreases |run|
  {
    hide Inv, Next, Enabled, Sound;
    if |run| > 0 {
      StepKeeps(k, run[0]);
      RunKeeps(Next(k, run[0]), run[1..]);
    }
  }

  /** Over all interleavings from the start: nothing crashes and every counter agrees with its queue. */
  lemma KernelSafe(planner: Planner, resources: seq<string>, degree: nat, run: seq<Step>)
    requires Possible(Initial(planner, resources, degree), run) && AllSound(Initial(planner, resources, degree), run)
    ensures Inv(After(Initial(planner, resources, degree), run))
  {
    InitialInv(planner, resources, degree);
    RunKeeps(Initial(planner, resources, degree), run);
  }

  lemma {:induction false} OneMore(k: Kernel, run: seq<Step>, a: Step)
    requires Possible(k, run) && Enabled(After(k, run), a)
    ensures Possible(k, run + [a]) && After(k, run + [a]) == Next(After(k, run), a)
    decreases |run|
  {
    hide Next, Enabled;
    if |run| > 0 {
      OneMore(Next(k, run[0]), run[1..], a);
      assert (run + [a])[1..] == run[1..] + [a];
    } else {
      assert (run + [a])[1..] == [];
    }
  }

  /** A run without its last step. */
  lemma {:induction false} OneLess(k: Kernel, run: seq<Step>)
    requires |run| > 0 && Possible(k, run)
    ensures var front, last := run[..|run| - 1], run[|run| - 1];
            Possible(k, front) && Enabled(After(k, front), last) && After(k, run) == Next(After(k, front), last)
    decreases |run|
  {
    hide Next, Enabled;
    if |run| > 1 {
      OneLess(Next(k, run[0]), run[1..]);
      assert run[..|run| - 1][1..] == run[1..][..|run| - 2];
    } else {
      assert run[1..] == [] && run[..0] == [];
    }
  }

  // ----- standing still -----

  /** No thread of the kernel can move: only a command, an interface or a resource would change anything. */
  ghost predicate Still(k: Kernel) {
    && (forall a: AdmitStep :: !CanAdmit(k, a))
    && (forall a: DispatchStep :: !CanDispatch(k, a))
    && (forall a: ReplyStep :: !CanReply(k, a))
    && k.seen == [] && k.waking == [] && k.woken == 0 && k.dying == [] && k.dead == 0
    && k.shell == Idle
  }

  /**
   When the kernel stands still with an idle CPU no process is ready, and a process is left in NEW only if
   as many as the degree allows are blocked: no slot and no signal is lost.
   */
  lemma StillMeans(k: Kernel)
    requires Inv(k) && Still(k) && k.cpu == NoProcess
    ensures k.readys == [] && k.aux == []
    ensures k.news == [] || |k.blockeds| == k.degree
  {
    hide OnePlace, IosBlocked, Claimed;
    assert !CanAdmit(k, SeeNew) && !CanAdmit(k, TakeSlot) && !CanAdmit(k, Admit) && !CanAdmit(k, AnnounceReady);
    assert !CanReply(k, Handle) && !CanReply(k, PostReady) && !CanReply(k, PostSlot) && !CanReply(k, PostCpu);
    assert !CanDispatch(k, TakeCpu) && !CanDispatch(k, TakeReady) && !CanDispatch(k, Choose)
        && !CanDispatch(k, PopAux) && !CanDispatch(k, PopReady) && !CanDispatch(k, Execute)
        && !CanDispatch(k, ProbeBack) && !CanDispatch(k, QuantumOver);
  }

  // ----- what kills leave behind -----

  /**
   A kill in NEW keeps every process in one place, but the slot on its way back was never taken and the
   announcement of the process stays: one more than the degree can be admitted.
   */
  lemma KillNewEffect(k: Kernel, pid: int)
    requires Inv(k) && Enabled(k, Kill(KillNew(pid)))
    ensures var r := Next(k, Kill(KillNew(pid)));
            && r.readysMax + SlotsHeld(r) == Allowance(r.degree, r.shell) + 1
            && r.newsAvailable + NewsTokens(r.admitter, r.shell) == |r.news| + 1
            && OnePlace(r) && ReadysCounted(r) && OneRunning(r)
  {
    hide Occurs, Remove;
    OccursRemove(k.news, pid, pid);
    forall p
      ensures Places(Next(k, Kill(KillNew(pid))), p) == Places(k, p)
    {
      OccursRemove(k.news, pid, p);
      OccursAppend(k.dying, pid, p);
    }
  }

  /** A kill of the only ready process: the next dispatch takes it from an empty queue. */
  lemma KillReadyCrashes(k: Kernel, pid: int)
    requires Inv(k) && k.shell == Idle && k.dispatcher == AwaitReady && k.readysAvailable > 0
    requires k.readys == [pid] && k.aux == []
    ensures var choose := if k.planner == VRR then [Dispatch(Choose)] else [];
            var run := [Kill(KillReady(pid)), Dispatch(TakeReady)] + choose + [Dispatch(PopReady)];
            Possible(k, run) && After(k, run).crashed
  {
    hide Inv, Places, SlotsHeld;
    NotCrashed(k);
    var choose := if k.planner == VRR then [Dispatch(Choose)] else [];
    var run := [Kill(KillReady(pid)), Dispatch(TakeReady)] + choose + [Dispatch(PopReady)];
    var one := Next(k, run[0]);
    assert one.readys == [];
    var two := Next(one, run[1]);
    OneMore(k, [], run[0]);
    OneMore(k, [] + [run[0]], run[1]);
    OneMore(k, [] + [run[0]] + [run[1]], run[2]);
    if k.planner == VRR {
      OneMore(k, [] + [run[0]] + [run[1]] + [run[2]], run[3]);
      assert run == [] + [run[0]] + [run[1]] + [run[2]] + [run[3]];
    } else {
      assert run == [] + [run[0]] + [run[1]] + [run[2]];
    }
  }

  lemma NotCrashed(k: Kernel)
    requires Inv(k)
    ensures !k.crashed
  {
  }

  /** A kill of a process an interface works for: the interface's answer finds no process. */
  lemma KillIoCrashes(k: Kernel, pid: int)
    requires Inv(k) && Enabled(k, Kill(KillBlocked(pid))) && pid in k.ios
    ensures var run := [Kill(KillBlocked(pid)), Wakeup(FinishIo(pid))];
            Possible(k, run) && After(k, run).crashed
  {
    hide NewsCounted, ReadysCounted, OneRunning, SlotsCounted, OnePlace, Claimed, Occurs, Standing, Cut, FirstOf;
    var one := Next(k, Kill(KillBlocked(pid)));
    StandingOnce(k, pid);
    BlockedCut(k.blockeds, FirstOf(k.blockeds, pid), "", pid);
    FirstOfIff(one.blockeds, pid);
    OneMore(k, [], Kill(KillBlocked(pid)));
    OneMore(k, [] + [Kill(KillBlocked(pid))], Wakeup(FinishIo(pid)));
  }

  /** Two searches see the only waiter of a resource; the second waking finds nobody. */
  lemma DoubleWakeCrashes(k: Kernel, name: string)
    requires Inv(k) && name in k.resources && WaitersIn(k.blockeds, name) == 1 && k.seen == []
    ensures var see, take := Wakeup(SeeWaiter(name)), Wakeup(TakeWaiter(name));
            Possible(k, [see, see, take, take]) && After(k, [see, see, take, take]).crashed
  {
    hide Inv, WaitersIn, FirstWaiter, Cut;
    NotCrashed(k);
    var see, take := Wakeup(SeeWaiter(name)), Wakeup(TakeWaiter(name));
    FirstWaiterIff(k.blockeds, name);
    BlockedCut(k.blockeds, FirstWaiter(k.blockeds, name), name, 0);
    FirstWaiterIff(Cut(k.blockeds, FirstWaiter(k.blockeds, name)), name);
    OneMore(k, [], see);
    OneMore(k, [] + [see], see);
    assert After(k, [] + [see] + [see]).seen == [name, name];
    OneMore(k, [] + [see] + [see], take);
    assert [name, name][1..] == [name];
    OneMore(k, [] + [see] + [see] + [take], take);
    assert [] + [see] + [see] + [take] + [take] == [see, see, take, take];
  }

  lemma {:induction false} RunJoin(k: Kernel, a: seq<Step>, b: seq<Step>)
    requires Possible(k, a) && Possible(After(k, a), b)
    ensures Possible(k, a + b) && After(k, a + b) == After(After(k, a), b)
    decreases |a|
  {
    hide Next, Enabled;
    if |a| == 0 {
      assert a + b == b;
    } else {
      RunJoin(Next(k, a[0]), a[1..], b);
      assert (a + b)[1..] == a[1..] + b;
    }
  }

  /** Steps that neither come back, wake nor kill are sound. */
  lemma {:induction false} PlainSound(k: Kernel, run: seq<Step>)
    requires Possible(k, run) && forall i :: 0 <= i < |run| ==> !run[i].Reply? && !run[i].Wakeup? && !run[i].Kill?
    ensures AllSound(k, run)
    decreases |run|
  {
    hide Next, Enabled;
    if |run| > 0 {
      PlainSound(Next(k, run[0]), run[1..]);
    }
  }

  const Make: seq<Step> := [] + [Creation(NewPid)] + [Creation(PushNew)] + [Creation(PostNew)]

  const Bring: seq<Step> :=
    [] + [Admission(SeeNew)] + [Admission(TakeSlot)] + [Admission(Admit)] + [Admission(AnnounceReady)]

  lemma MakeOne(k: Kernel)
    requires !k.crashed && k.shell == Idle && k.freePids == []
    ensures Possible(k, Make)
    ensures After(k, Make) == k.(nextPid := k.nextPid + 1, news := k.news + [k.nextPid], newsAvailable := k.newsAvailable + 1)
  {
    OneMore(k, [], Creation(NewPid));
    OneMore(k, [] + [Creation(NewPid)], Creation(PushNew));
    OneMore(k, [] + [Creation(NewPid)] + [Creation(PushNew)], Creation(PostNew));
  }

  lemma BringOne(k: Kernel)
    requires !k.crashed && k.admitter == AwaitNew && k.newsAvailable > 0 && k.readysMax > 0 && k.news != []
    ensures Possible(k, Bring)
    ensures After(k, Bring) == k.(newsAvailable := k.newsAvailable - 1, readysMax := k.readysMax - 1, news := k.news[1..],
                                  readys := k.readys + [k.news[0]], readysAvailable := k.readysAvailable + 1)
  {
    OneMore(k, [], Admission(SeeNew));
    OneMore(k, [] + [Admission(SeeNew)], Admission(TakeSlot));
    OneMore(k, [] + [Admission(SeeNew)] + [Admission(TakeSlot)], Admission(Admit));
    OneMore(k, [] + [Admission(SeeNew)] + [Admission(TakeSlot)] + [Admission(Admit)], Admission(AnnounceReady));
  }

  /**
   From the start one process is made and brought to READY and the dispatcher waits for it: a sound run under
   every planner, to a state where a kill of that process crashes the next dispatch.
   */
  lemma KillReadyReached(planner: Planner)
    ensures var k, run := Initial(planner, [], 1), Make + Bring + [Dispatch(TakeCpu)];
            && Possible(k, run) && AllSound(k, run)
            && var r := After(k, run);
               Inv(r) && r.shell == Idle && r.dispatcher == AwaitReady && r.readysAvailable == 1
               && r.readys == [1] && r.aux == []
  {
    hide Inv, Sound;
    var k, run := Initial(planner, [], 1), Make + Bring + [Dispatch(TakeCpu)];
    MakeOne(k);
    BringOne(After(k, Make));
    RunJoin(k, Make, Bring);
    OneMore(k, Make + Bring, Dispatch(TakeCpu));
    PlainSound(k, run);
    InitialInv(planner, [], 1);
    RunKeeps(k, run);
  }

  /** The dispatcher takes the ready process and sends it to the CPU. */
  function Send(planner: Planner): (run: seq<Step>) {
    [] + [Dispatch(TakeReady)] + (if planner == VRR then [Dispatch(Choose)] else []) + [Dispatch(PopReady)] + [Dispatch(Execute)]
  }

  lemma SendOne(k: Kernel)
    requires !k.crashed && k.dispatcher == AwaitReady && k.readysAvailable > 0 && k.readys != [] && k.aux == []
    ensures Possible(k, Send(k.planner))
    ensures After(k, Send(k.planner))
         == k.(readysAvailable := k.readysAvailable - 1, readys := k.readys[1..], cpu := Running(k.readys[0]),
               dispatcher := if k.planner == FIFO then AwaitCpu else Timing)
  {
    var run := [] + [Dispatch(TakeReady)];
    OneMore(k, [], Dispatch(TakeReady));
    if k.planner == VRR {
      OneMore(k, run, Dispatch(Choose));
      run := run + [Dispatch(Choose)];
    } else {
      assert run + [] == run;
    }
    OneMore(k, run, Dispatch(PopReady));
    OneMore(k, run + [Dispatch(PopReady)], Dispatch(Execute));
  }

  lemma {:induction false} SoundJoin(k: Kernel, a: seq<Step>, b: seq<Step>)
    requires Possible(k, a) && AllSound(k, a) && Possible(After(k, a), b) && AllSound(After(k, a), b)
    ensures Possible(k, a + b) && After(k, a + b) == After(After(k, a), b) && AllSound(k, a + b)
    decreases |a|
  {
    hide Next, Enabled, Sound;
    if |a| == 0 {
      assert a + b == b;
    } else {
      SoundJoin(Next(k, a[0]), a[1..], b);
      assert (a + b)[1..] == a[1..] + b;
    }
  }

  /** The running process asks an interface for an operation and is blocked. */
  lemma AskOne(k: Kernel, operation: string)
    requires !k.crashed && k.cpu.Running? && k.response == Listening && operation !in k.resources
    ensures var run := [Reply(Return(Io(operation))), Reply(Handle)];
            && Possible(k, run) && AllSound(k, run)
            && After(k, run) == k.(cpu := NoProcess, response := Closing, ios := k.ios + [k.cpu.pid],
                                   blockeds := k.blockeds + [Waiter(k.cpu.pid, operation)])
  {
    var back := Reply(Return(Io(operation)));
    var one := Next(k, back);
    assert [back, Reply(Handle)][1..] == [Reply(Handle)] && [Reply(Handle)][1..] == [];
    assert After(one, [Reply(Handle)]) == Next(one, Reply(Handle));
  }

  /** Under every planner a sound run from the start to a state in which a process an interface works for can be killed. */
  lemma KillIoReached(planner: Planner, operation: string)
    ensures var ask := [Reply(Return(Io(operation))), Reply(Handle)];
            var k, run := Initial(planner, [], 1), Make + Bring + [Dispatch(TakeCpu)] + Send(planner) + ask;
            && Possible(k, run) && AllSound(k, run)
            && var r := After(k, run);
               Inv(r) && Enabled(r, Kill(KillBlocked(1))) && 1 in r.ios
  {
    hide Inv, Sound, Possible, After, AllSound, Send;
    var ask := [Reply(Return(Io(operation))), Reply(Handle)];
    var k, ready := Initial(planner, [], 1), Make + Bring + [Dispatch(TakeCpu)];
    KillReadyReached(planner);
    ReadyIs(planner);
    var at := After(k, ready);
    SendOne(at);
    SendSound(at);
    SoundJoin(k, ready, Send(planner));
    var sent := After(at, Send(planner));
    AskOne(sent, operation);
    SoundJoin(k, ready + Send(planner), ask);
    InitialInv(planner, [], 1);
    RunKeeps(k, ready + Send(planner) + ask);
  }

  lemma SendSound(k: Kernel)
    requires Possible(k, Send(k.planner))
    ensures AllSound(k, Send(k.planner))
  {
    PlainSound(k, Send(k.planner));
  }

  lemma ReadyIs(planner: Planner)
    ensures var k, run := Initial(planner, [], 1), Make + Bring + [Dispatch(TakeCpu)];
            && Possible(k, run)
            && var r := After(k, run);
               && !r.crashed && r.planner == planner && r.resources == [] && r.cpu == NoProcess && r.response == Listening
               && r.blockeds == [] && r.shell == Idle
  {
    var k := Initial(planner, [], 1);
    MakeOne(k);
    BringOne(After(k, Make));
    RunJoin(k, Make, Bring);
    OneMore(k, Make + Bring, Dispatch(TakeCpu));
  }
}
