/**
 The kernel's operations on its queues, each carried out in place by one thread. Every operation is a run of
 the transition system in which no other thread moves.
 */
module Scheduler {
  import opened Lists
  import opened BlockedList
  import opened KernelModel
  import opened KernelInvariant
  import opened KernelRuns

  /** A run ends in a state. */
  ghost predicate Leads(k: Kernel, run: seq<Step>, r: Kernel) {
    Possible(k, run) && After(k, run) == r
  }

  lemma LeadsOn(k: Kernel, run: seq<Step>, r: Kernel, a: Step)
    requires Leads(k, run, r) && Enabled(r, a)
    ensures Leads(k, run + [a], Next(r, a))
  {
    OneMore(k, run, a);
  }

  lemma NotWaking(k: Kernel, i: nat)
    requires OnePlace(k) && i < |k.blockeds|
    ensures k.blockeds[i].pid !in k.waking
  {
    hide Occurs, Standing;
    var pid := k.blockeds[i].pid;
    StandsAt(k.blockeds, i);
    OccursIn(k.waking, pid);
    assert Places(k, pid) <= 1;
  }

  /** What desblockPcb searches the blocked list for: an interface names the process, a resource the context. */
  datatype Search = ByPid(pid: int) | ByContext(name: string)

  function Found(blocked: seq<Waiter>, search: Search): (i: int)
    ensures i != -1 ==> 0 <= i < |blocked|
  {
    match search
    case ByPid(pid) => FirstOf(blocked, pid)
    case ByContext(name) => FirstWaiter(blocked, name)
  }

  /** The process asked for, or the one that has waited longest for the resource. */
  lemma FoundIs(blocked: seq<Waiter>, search: Search)
    requires Found(blocked, search) != -1
    ensures var i := Found(blocked, search);
            && (search.ByPid? ==> blocked[i].pid == search.pid)
            && (search.ByContext? ==>
                  [blocked[i].pid] + WaitLine(Cut(blocked, i), search.name) == WaitLine(blocked, search.name))
  {
    hide WaitLine, Cut;
    if search.ByContext? {
      FirstIsHead(blocked, search.name);
    }
  }

  /** The step that takes the process found out of the list. */
  function Taking(search: Search): (a: WakeStep) {
    match search
    case ByPid(pid) => FinishIo(pid)
    case ByContext(name) => TakeWaiter(name)
  }

  /** The search is for an interface's answer, or follows a search that has seen a waiter. */
  predicate Due(k: Kernel, search: Search) {
    match search
    case ByPid(pid) => pid in k.ios
    case ByContext(name) => name in k.seen
  }

  /** The search of a thread that is due finds a process. */
  lemma DueFinds(k: Kernel, search: Search)
    requires Inv(k) && Due(k, search)
    ensures Found(k.blockeds, search) != -1
  {
    hide OnePlace, NewsCounted, ReadysCounted, OneRunning, SlotsCounted, IosBlocked, Claimed, FirstOf, FirstWaiter;
    match search
    case ByPid(pid) => InBlocked(k, pid);
    case ByContext(name) => HasWaiter(k, name);
  }

  /** The kernel after a waking in which no other thread moved. */
  function Woken(k: Kernel, search: Search, toAux: bool): (r: Kernel)
    requires Found(k.blockeds, search) != -1
  {
    var i := Found(k.blockeds, search);
    var pid := k.blockeds[i].pid;
    k.(blockeds := Cut(k.blockeds, i),
       ios := if search.ByPid? then Remove(k.ios, search.pid) else k.ios,
       seen := if search.ByContext? then Remove(k.seen, search.name) else k.seen,
       readys := if toAux then k.readys else k.readys + [pid],
       aux := if toAux then k.aux + [pid] else k.aux,
       readysAvailable := k.readysAvailable + 1)
  }

  lemma WakingLeads(k: Kernel, search: Search, toAux: bool)
    requires Inv(k) && Due(k, search) && (toAux ==> k.planner == VRR)
    ensures Found(k.blockeds, search) != -1
    ensures var pid := k.blockeds[Found(k.blockeds, search)].pid;
            Leads(k, [Wakeup(Taking(search)), Wakeup(if toAux then PushAux(pid) else PushReady(pid)), Wakeup(PostWoken)],
                  Woken(k, search, toAux))
  {
    hide OnePlace, NewsCounted, ReadysCounted, OneRunning, SlotsCounted, IosBlocked, Claimed, Leads;
    hide Remove, FirstOf, FirstWaiter, Cut;
    DueFinds(k, search);
    var i := Found(k.blockeds, search);
    var pid := k.blockeds[i].pid;
    var push := if toAux then PushAux(pid) else PushReady(pid);
    NotWaking(k, i);
    RemoveLast(k.waking, pid);
    LeadsNone(k);
    LeadsOn(k, [], k, Wakeup(Taking(search)));
    var one := Next(k, Wakeup(Taking(search)));
    LeadsOn(k, [] + [Wakeup(Taking(search))], one, Wakeup(push));
    var two := Next(one, Wakeup(push));
    LeadsOn(k, [] + [Wakeup(Taking(search))] + [Wakeup(push)], two, Wakeup(PostWoken));
    assert [] + [Wakeup(Taking(search))] + [Wakeup(push)] + [Wakeup(PostWoken)]
        == [Wakeup(Taking(search)), Wakeup(push), Wakeup(PostWoken)];
  }

  lemma LeadsNone(k: Kernel)
    ensures Leads(k, [], k)
  {
  }

  lemma RaiseLeads(was: Kernel, run: seq<Step>, k: Kernel)
    requires Leads(was, run, k) && !k.crashed && k.shell.Raising? && k.shell.done < k.shell.to - k.degree
    ensures Leads(was, run + [Change(ChangeOne)],
                  k.(readysMax := k.readysMax + 1, shell := Raising(k.shell.done + 1, k.shell.to)))
  {
    hide Leads;
    LeadsOn(was, run, k, Change(ChangeOne));
  }

  lemma LowerLeads(was: Kernel, run: seq<Step>, k: Kernel)
    requires Leads(was, run, k) && !k.crashed && k.shell.Lowering? && k.shell.done < k.degree - k.shell.to
    requires k.readysMax > 0
    ensures Leads(was, run + [Change(ChangeOne)],
                  k.(readysMax := k.readysMax - 1, shell := Lowering(k.shell.done + 1, k.shell.to)))
  {
    hide Leads;
    LeadsOn(was, run, k, Change(ChangeOne));
  }

  lemma StartLeads(k: Kernel, value: int)
    requires !k.crashed && k.shell == Idle
    ensures Leads(k, [Change(ChangeDegree(value))],
                  if value <= 0 then k
                  else k.(shell := if value > k.degree then Raising(0, value) else Lowering(0, value)))
  {
    hide Leads;
    LeadsNone(k);
    LeadsOn(k, [], k, Change(ChangeDegree(value)));
    assert [] + [Change(ChangeDegree(value))] == [Change(ChangeDegree(value))];
  }

  lemma EndLeads(was: Kernel, run: seq<Step>, k: Kernel)
    requires Leads(was, run, k) && !k.crashed
    requires (k.shell.Raising? && k.shell.done >= k.shell.to - k.degree)
          || (k.shell.Lowering? && k.shell.done >= k.degree - k.shell.to)
    ensures Leads(was, run + [Change(ChangeDone)], k.(degree := k.shell.to, shell := Idle))
  {
    hide Leads;
    LeadsOn(was, run, k, Change(ChangeDone));
  }

  class Queues {
    const planner: Planner
    const quantumLimit: nat
    var news: seq<int>
    var readys: seq<int>
    var aux: seq<int>
    var blockeds: seq<Waiter>
    var freePids: seq<int>
    var nextPid: int
    var newsAvailable: nat
    var readysMax: nat
    var readysAvailable: nat
    var degree: int
    ghost var others: Kernel

    constructor (planner: Planner, resources: seq<string>, quantumLimit: nat, degree: nat)
      ensures Now() == Initial(planner, resources, degree) && this.quantumLimit == quantumLimit
    {
      this.planner, this.quantumLimit, this.degree := planner, quantumLimit, degree;
      news, readys, aux, blockeds, freePids, nextPid := [], [], [], [], [], 1;
      newsAvailable, readysMax, readysAvailable := 0, degree, 0;
      others := Initial(planner, resources, degree);
    }

    /** The kernel: these fields, and where the threads stand. */
    ghost function Now(): (k: Kernel)
      reads this
    {
      others.(planner := planner, news := news, readys := readys, aux := aux, blockeds := blockeds,
              freePids := freePids, nextPid := nextPid, newsAvailable := newsAvailable,
              readysMax := readysMax, readysAvailable := readysAvailable, degree := degree)
    }

    /** The oldest released pid first, a fresh one only when none is free. */
    method GetNewPid() returns (pid: int)
      modifies this`freePids, this`nextPid
      ensures if old(freePids) != []
              then [pid] + freePids == old(freePids) && nextPid == old(nextPid)
              else pid == old(nextPid) && freePids == [] && nextPid == pid + 1
    {
      if |freePids| > 0 {
        pid := freePids[0];
        freePids := freePids[1..];
      } else {
        pid := nextPid;
        nextPid := nextPid + 1;
      }
    }

    method CreatePcb() returns (pid: int)
      requires !Now().crashed && Now().shell == Idle
      modifies this`freePids, this`nextPid, this`news, this`newsAvailable
      ensures Leads(old(Now()), [Creation(NewPid), Creation(PushNew), Creation(PostNew)], Now())
      ensures news == old(news) + [pid]
    {
      ghost var was := Now();
      pid := GetNewPid();
      ghost var made := was.(freePids := freePids, nextPid := nextPid, shell := Making(pid));
      assert made == Next(was, Creation(NewPid)) by {
        hide Leads;
        assert was.freePids != [] ==> was.freePids[1..] == freePids && was.freePids[0] == pid;
      }
      LeadsOn(was, [], was, Creation(NewPid));
      news := news + [pid];
      LeadsOn(was, [] + [Creation(NewPid)], made, Creation(PushNew));
      newsAvailable := newsAvailable + 1;
      LeadsOn(was, [] + [Creation(NewPid)] + [Creation(PushNew)], Next(made, Creation(PushNew)), Creation(PostNew));
      assert [] + [Creation(NewPid)] + [Creation(PushNew)] + [Creation(PostNew)]
          == [Creation(NewPid), Creation(PushNew), Creation(PostNew)];
    }

    /** NEW to READY, once the two waits are passed. */
    method Admit() returns (pid: int)
      requires Inv(Now()) && Now().admitter == Moving
      modifies this`news, this`readys, this`readysAvailable, this`others
      ensures Leads(old(Now()), [Admission(KernelModel.Admit), Admission(AnnounceReady)], Now())
      ensures [pid] + news == old(news) && readys == old(readys) + [pid]
    {
      ghost var was := Now();
      assert news != [] by { hide OnePlace, SlotsCounted, OneRunning, IosBlocked, Claimed; }
      pid := news[0];
      news := news[1..];
      readys := readys + [pid];
      LeadsOn(was, [], was, Admission(KernelModel.Admit));
      readysAvailable := readysAvailable + 1;
      others := others.(admitter := AwaitNew);
      LeadsOn(was, [] + [Admission(KernelModel.Admit)], Next(was, Admission(KernelModel.Admit)), Admission(AnnounceReady));
      assert [] + [Admission(KernelModel.Admit)] + [Admission(AnnounceReady)]
          == [Admission(KernelModel.Admit), Admission(AnnounceReady)];
    }

    /** The pop of fifo(): the queue is never empty here. */
    method Fifo() returns (pid: int)
      requires Inv(Now()) && Now().dispatcher == FromReady
      modifies this`readys, this`others
      ensures Leads(old(Now()), [Dispatch(PopReady)], Now())
      ensures [pid] + readys == old(readys)
    {
      ghost var was := Now();
      assert readys != [] by { hide OnePlace, SlotsCounted, OneRunning, IosBlocked, Claimed; }
      pid := readys[0];
      readys := readys[1..];
      others := others.(dispatcher := Holding(pid));
      LeadsOn(was, [], was, Dispatch(PopReady));
      assert [] + [Dispatch(PopReady)] == [Dispatch(PopReady)];
    }

    /** The process found leaves the blocked list for the auxiliary queue (VRR, with quantum left) or for READY. */
    method DesblockPcb(search: Search, quantumOf: int -> nat) returns (pid: int)
      requires Inv(Now()) && Due(Now(), search)
      modifies this`blockeds, this`readys, this`aux, this`readysAvailable, this`others
      ensures Found(old(blockeds), search) != -1 && pid == old(blockeds)[Found(old(blockeds), search)].pid
      ensures var toAux := planner == VRR && quantumOf(pid) < quantumLimit;
              Leads(old(Now()), [Wakeup(Taking(search)), Wakeup(if toAux then PushAux(pid) else PushReady(pid)),
                                 Wakeup(PostWoken)], Now())
              && Now() == Woken(old(Now()), search, toAux)
      ensures search.ByPid? ==> pid == search.pid
      ensures search.ByContext? ==> [pid] + WaitLine(blockeds, search.name) == WaitLine(old(blockeds), search.name)
      ensures var toAux := planner == VRR && quantumOf(pid) < quantumLimit;
              && readys == old(readys) + (if toAux then [] else [pid])
              && aux == old(aux) + (if toAux then [pid] else [])
    {
      hide Inv, Leads, Remove, Cut, FirstOf, FirstWaiter, WaitLine;
      ghost var was := Now();
      DueFinds(was, search);
      var i := Found(blockeds, search);
      FoundIs(blockeds, search);
      pid := blockeds[i].pid;
      WakingLeads(was, search, planner == VRR && quantumOf(pid) < quantumLimit);
      blockeds := Cut(blockeds, i);
      others := others.(ios := if search.ByPid? then Remove(was.ios, search.pid) else was.ios,
                        seen := if search.ByContext? then Remove(was.seen, search.name) else was.seen);
      if planner == VRR && quantumOf(pid) < quantumLimit {
        aux := aux + [pid];
      } else {
        readys := readys + [pid];
      }
      readysAvailable := readysAvailable + 1;
    }

    /**
     The degree changes one slot at a time. Lowering it takes slots as they come free: when there are not
     enough the console stays waiting, and the degree is not changed yet.
     */
    method ChangeMultiprogramming(value: int) returns (finished: bool, ghost run: seq<Step>)
      requires !Now().crashed && Now().shell == Idle
      modifies this`readysMax, this`degree, this`others
      ensures Leads(old(Now()), run, Now())
      ensures finished <==> value <= 0 || old(readysMax) >= old(degree) - value
      ensures finished && value > 0 ==>
                Now() == old(Now()).(degree := value, readysMax := old(readysMax) + value - old(degree))
      ensures value <= 0 ==> Now() == old(Now())
      ensures !finished ==> readysMax == 0 && degree == old(degree) && Now().shell == Lowering(old(readysMax), value)
    {
      hide Leads;
      ghost var was := Now();
      StartLeads(was, value);
      if value <= 0 {
        return true, [Change(ChangeDegree(value))];
      }
      finished := true;
      if value > degree {
        others := others.(shell := Raising(0, value));
        run := Raise(value, was, [Change(ChangeDegree(value))]);
      } else {
        others := others.(shell := Lowering(0, value));
        finished, run := Lower(value, was, [Change(ChangeDegree(value))]);
      }
      if finished {
        EndLeads(was, run, Now());
        run := run + [Change(ChangeDone)];
        degree := value;
        others := others.(shell := Idle);
      }
    }

    /** The posts of a higher degree. */
    method Raise(value: int, ghost was: Kernel, ghost start: seq<Step>) returns (ghost run: seq<Step>)
      requires value > degree == was.degree && !was.crashed && readysMax == was.readysMax
      requires Now() == was.(shell := Raising(0, value)) && Leads(was, start, Now())
      modifies this`readysMax, this`others
      ensures Now() == was.(readysMax := was.readysMax + (value - degree), shell := Raising(value - degree, value))
      ensures Leads(was, run, Now())
    {
      hide Leads;
      run := start;
      var i := 0;
      while i < value - degree
        invariant 0 <= i <= value - degree && readysMax == was.readysMax + i
        invariant Now() == was.(readysMax := readysMax, shell := Raising(i, value))
        invariant Leads(was, run, Now())
      {
        RaiseLeads(was, run, Now());
        readysMax := readysMax + 1;
        others := others.(shell := Raising(i + 1, value));
        run := run + [Change(ChangeOne)];
        i := i + 1;
      }
    }

    /** The waits of a lower degree, as far as there are free slots. */
    method Lower(value: int, ghost was: Kernel, ghost start: seq<Step>)
        returns (finished: bool, ghost run: seq<Step>)
      requires 0 < value <= degree == was.degree && !was.crashed && readysMax == was.readysMax
      requires Now() == was.(shell := Lowering(0, value)) && Leads(was, start, Now())
      modifies this`readysMax, this`others
      ensures finished <==> was.readysMax >= degree - value
      ensures var n: nat := if finished then degree - value else was.readysMax;
              Now() == was.(readysMax := was.readysMax - n, shell := Lowering(n, value))
      ensures Leads(was, run, Now())
    {
      hide Leads;
      run := start;
      var i := 0;
      while i < degree - value && readysMax > 0
        invariant 0 <= i <= degree - value && readysMax == was.readysMax - i
        invariant Now() == was.(readysMax := readysMax, shell := Lowering(i, value))
        invariant Leads(was, run, Now())
      {
        LowerLeads(was, run, Now());
        readysMax := readysMax - 1;
        others := others.(shell := Lowering(i + 1, value));
        run := run + [Change(ChangeOne)];
        i := i + 1;
      }
      finished := i == degree - value;
    }
  }
}
