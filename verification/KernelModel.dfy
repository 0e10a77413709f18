/**
 The kernel's scheduler as a transition system. The queues, the semaphores and the place each thread has
 reached are the state; a step is one critical section, one semaphore operation or one message. Threads
 interleave freely, so the order in which a thread does its parts is kept, and nothing else.
 */
module KernelModel {
  import opened CTypes
  import opened Lists
  import opened BlockedList

  datatype Planner = FIFO | RR | VRR

  /** Why the CPU gives a process back; for an interface and a resource, with the context it leaves. */
  datatype Reason =
    | Exit | Error | Console | EndOfQuantum | Io(operation: string) | Wait(name: string) | Unheard

  /** runnerProcessNewToReady: before each wait, before the move, before the last post. */
  datatype Admitter = AwaitNew | AwaitSlot | Moving | Announcing

  /** runnerProcessToExecute: the two waits, the choice of a queue, the pop, the sending, the quantum. */
  datatype Dispatcher =
    | AwaitCpu | AwaitReady | Choosing | FromAux | FromReady | Holding(pid: int) | Timing | Probing

  /** checkResponseOfCpu: what is left to do for the process that came back. */
  datatype Response = Listening | Returned(pid: int, reason: Reason) | Requeued | Freed | Closing

  /** The console: making a process, or changing the degree of multiprogramming one slot at a time. */
  datatype Shell =
    | Idle | Making(pid: int) | Made
    | Raising(done: nat, to: int) | Lowering(done: nat, to: int)

  datatype Cpu = NoProcess | Running(pid: int)

  datatype Kernel = Kernel(
    planner: Planner, resources: seq<string>,
    news: seq<int>, readys: seq<int>, aux: seq<int>, blockeds: seq<Waiter>,
    ios: seq<int>,             // processes an interface has yet to answer for
    seen: seq<string>,         // for each thread between its search for a waiter and its waking, the resource
    waking: seq<int>,          // taken out of the blocked list, not yet in a queue
    woken: nat,                // threads that put one in a queue and have not posted
    dying: seq<int>,           // taken out of a queue or list to be deleted, pid not yet released
    dead: nat,                 // threads that released a pid and have not posted
    freePids: seq<int>, nextPid: int,
    newsAvailable: nat, readysMax: nat, readysAvailable: nat, running: nat,
    degree: int,
    admitter: Admitter, dispatcher: Dispatcher, response: Response, shell: Shell, cpu: Cpu,
    crashed: bool)

  datatype AdmitStep = SeeNew | TakeSlot | Admit | AnnounceReady

  datatype DispatchStep =
    | TakeCpu | TakeReady | Choose | PopAux | PopReady | Execute | Probe | ProbeBack | QuantumOver

  /** The process comes back from the CPU. */
  datatype ReplyStep = Return(reason: Reason) | Handle | PostReady | PostSlot | PostCpu

  /** Interfaces finish or fail, waiters are woken, deleted processes go. */
  datatype WakeStep =
    | FinishIo(pid: int) | FailIo(pid: int) | SeeWaiter(name: string) | TakeWaiter(name: string)
    | PushReady(pid: int) | PushAux(pid: int) | PostWoken | ReleaseDead(pid: int) | PostDead

  datatype CreateStep = NewPid | PushNew | PostNew

  datatype DegreeStep = ChangeDegree(to: int) | ChangeOne | ChangeDone

  datatype KillStep = KillNew(pid: int) | KillReady(pid: int) | KillAux(pid: int) | KillBlocked(pid: int)

  datatype Step =
    | Admission(admit: AdmitStep)
    | Dispatch(dispatch: DispatchStep)
    | Reply(reply: ReplyStep)
    | Wakeup(wake: WakeStep)
    | Creation(create: CreateStep)
    | Change(change: DegreeStep)
    | Kill(kill: KillStep)

  /** The kernel when its threads start; resources and degree are the configured ones. */
  function Initial(planner: Planner, resources: seq<string>, degree: nat): (k: Kernel) {
    Kernel(planner, resources, [], [], [], [], [], [], [], 0, [], 0, [], 1, 0, degree, 0, 1, degree,
           AwaitNew, AwaitCpu, Listening, Idle, NoProcess, false)
  }

  /** Whether a thread can take a step: it is there, and the semaphore it waits for is positive. */
  predicate CanAdmit(k: Kernel, a: AdmitStep) {
    match a
    case SeeNew => k.admitter == AwaitNew && k.newsAvailable > 0
    case TakeSlot => k.admitter == AwaitSlot && k.readysMax > 0
    case Admit => k.admitter == Moving
    case AnnounceReady => k.admitter == Announcing
  }

  predicate CanDispatch(k: Kernel, a: DispatchStep) {
    match a
    case TakeCpu => k.dispatcher == AwaitCpu && k.running > 0
    case TakeReady => k.dispatcher == AwaitReady && k.readysAvailable > 0
    case Choose => k.dispatcher == Choosing
    case PopAux => k.dispatcher == FromAux
    case PopReady => k.dispatcher == FromReady
    case Execute => k.dispatcher.Holding?
    case Probe => k.dispatcher == Timing && k.running > 0
    case ProbeBack => k.dispatcher == Probing
    case QuantumOver => k.dispatcher == Timing
  }

  predicate CanReply(k: Kernel, a: ReplyStep) {
    match a
    case Return(_) => k.cpu.Running? && k.response == Listening
    case Handle => k.response.Returned?
    case PostReady => k.response == Requeued
    case PostSlot => k.response == Freed
    case PostCpu => k.response == Closing
  }

  predicate CanWake(k: Kernel, a: WakeStep) {
    match a
    case FinishIo(pid) => pid in k.ios
    case FailIo(pid) => pid in k.ios
    case SeeWaiter(name) => name in k.resources && FirstWaiter(k.blockeds, name) != -1
    case TakeWaiter(name) => name in k.seen
    case PushReady(pid) => pid in k.waking
    case PushAux(pid) => pid in k.waking && k.planner == VRR
    case PostWoken => k.woken > 0
    case ReleaseDead(pid) => pid in k.dying
    case PostDead => k.dead > 0
  }

  predicate CanCreate(k: Kernel, a: CreateStep) {
    match a
    case NewPid => k.shell == Idle
    case PushNew => k.shell.Making?
    case PostNew => k.shell == Made
  }

  predicate CanChange(k: Kernel, a: DegreeStep) {
    match a
    case ChangeDegree(to) => k.shell == Idle
    case ChangeOne =>
      (k.shell.Raising? && k.shell.done < k.shell.to - k.degree)
      || (k.shell.Lowering? && k.shell.done < k.degree - k.shell.to && k.readysMax > 0)
    case ChangeDone =>
      (k.shell.Raising? && k.shell.done >= k.shell.to - k.degree)
      || (k.shell.Lowering? && k.shell.done >= k.degree - k.shell.to)
  }

  predicate CanKill(k: Kernel, a: KillStep) {
    match a
    case KillNew(pid) => k.shell == Idle && pid in k.news
    case KillReady(pid) => k.shell == Idle && pid in k.readys
    case KillAux(pid) => k.shell == Idle && pid in k.aux
    case KillBlocked(pid) => k.shell == Idle && FirstOf(k.blockeds, pid) != -1
  }

  predicate Enabled(k: Kernel, a: Step) {
    !k.crashed &&
    match a
    case Admission(s) => CanAdmit(k, s)
    case Dispatch(s) => CanDispatch(k, s)
    case Reply(s) => CanReply(k, s)
    case Wakeup(s) => CanWake(k, s)
    case Creation(s) => CanCreate(k, s)
    case Change(s) => CanChange(k, s)
    case Kill(s) => CanKill(k, s)
  }

  /** The state after a step. Using what an empty queue or a failed search gives is a crash. */
  function AdmitNext(k: Kernel, a: AdmitStep): (r: Kernel)
    requires CanAdmit(k, a)
  {
    match a
    case SeeNew => k.(newsAvailable := k.newsAvailable - 1, admitter := AwaitSlot)
    case TakeSlot => k.(readysMax := k.readysMax - 1, admitter := Moving)
    case Admit =>
      if k.news == [] then k.(crashed := true)
      else k.(news := k.news[1..], readys := k.readys + [k.news[0]], admitter := Announcing)
    case AnnounceReady => k.(readysAvailable := k.readysAvailable + 1, admitter := AwaitNew)
  }

  function DispatchNext(k: Kernel, a: DispatchStep): (r: Kernel)
    requires CanDispatch(k, a)
  {
    match a
    case TakeCpu => k.(running := k.running - 1, dispatcher := AwaitReady)
    case TakeReady =>
      k.(readysAvailable := k.readysAvailable - 1, dispatcher := if k.planner == VRR then Choosing else FromReady)
    case Choose => k.(dispatcher := if |k.aux| > 0 then FromAux else FromReady)
    case PopAux =>
      if k.aux == [] then k.(crashed := true) else k.(aux := k.aux[1..], dispatcher := Holding(k.aux[0]))
    case PopReady =>
      if k.readys == [] then k.(crashed := true) else k.(readys := k.readys[1..], dispatcher := Holding(k.readys[0]))
    case Execute =>
      k.(cpu := Running(k.dispatcher.pid), dispatcher := if k.planner == FIFO then AwaitCpu else Timing)
    case Probe => k.(running := k.running - 1, dispatcher := Probing)
    case ProbeBack => k.(running := k.running + 1, dispatcher := AwaitCpu)
    case QuantumOver => k.(dispatcher := AwaitCpu)
  }

  function ReplyNext(k: Kernel, a: ReplyStep): (r: Kernel)
    requires CanReply(k, a)
  {
    match a
    case Return(reason) => k.(cpu := NoProcess, response := Returned(k.cpu.pid, reason))
    case Handle => Handled(k, k.response.pid, k.response.reason)
    case PostReady => k.(readysAvailable := k.readysAvailable + 1, response := Closing)
    case PostSlot => k.(readysMax := k.readysMax + 1, response := Closing)
    case PostCpu => k.(running := k.running + 1, response := Listening)
  }

  function WakeNext(k: Kernel, a: WakeStep): (r: Kernel)
    requires CanWake(k, a)
  {
    match a
    case FinishIo(pid) =>
      var i := FirstOf(k.blockeds, pid);
      if i == -1 then k.(crashed := true)
      else k.(ios := Remove(k.ios, pid), blockeds := Cut(k.blockeds, i), waking := k.waking + [pid])
    case FailIo(pid) =>
      var i := FirstOf(k.blockeds, pid);
      if i == -1 then k.(crashed := true)
      else k.(ios := Remove(k.ios, pid), blockeds := Cut(k.blockeds, i), dying := k.dying + [pid])
    case SeeWaiter(name) => k.(seen := k.seen + [name])
    case TakeWaiter(name) =>
      var i := FirstWaiter(k.blockeds, name);
      if i == -1 then k.(crashed := true)
      else k.(seen := Remove(k.seen, name), blockeds := Cut(k.blockeds, i), waking := k.waking + [k.blockeds[i].pid])
    case PushReady(pid) => k.(waking := Remove(k.waking, pid), readys := k.readys + [pid], woken := k.woken + 1)
    case PushAux(pid) => k.(waking := Remove(k.waking, pid), aux := k.aux + [pid], woken := k.woken + 1)
    case PostWoken => k.(woken := k.woken - 1, readysAvailable := k.readysAvailable + 1)
    case ReleaseDead(pid) =>
      k.(dying := Remove(k.dying, pid), freePids := k.freePids + [pid], dead := k.dead + 1)
    case PostDead => k.(dead := k.dead - 1, readysMax := k.readysMax + 1)
  }

  function CreateNext(k: Kernel, a: CreateStep): (r: Kernel)
    requires CanCreate(k, a)
  {
    match a
    case NewPid =>
      if |k.freePids| > 0 then k.(freePids := k.freePids[1..], shell := Making(k.freePids[0]))
      else k.(nextPid := k.nextPid + 1, shell := Making(k.nextPid))
    case PushNew => k.(news := k.news + [k.shell.pid], shell := Made)
    case PostNew => k.(newsAvailable := k.newsAvailable + 1, shell := Idle)
  }

  function ChangeNext(k: Kernel, a: DegreeStep): (r: Kernel)
    requires CanChange(k, a)
  {
    match a
    case ChangeDegree(to) =>
      if to <= 0 then k
      else if to > k.degree then k.(shell := Raising(0, to))
      else k.(shell := Lowering(0, to))
    case ChangeOne =>
      if k.shell.Raising? then k.(readysMax := k.readysMax + 1, shell := Raising(k.shell.done + 1, k.shell.to))
      else k.(readysMax := k.readysMax - 1, shell := Lowering(k.shell.done + 1, k.shell.to))
    case ChangeDone => k.(degree := k.shell.to, shell := Idle)
  }

  function KillNext(k: Kernel, a: KillStep): (r: Kernel)
    requires CanKill(k, a)
  {
    match a
    case KillNew(pid) => k.(news := Remove(k.news, pid), dying := k.dying + [pid])
    case KillReady(pid) => k.(readys := Remove(k.readys, pid), dying := k.dying + [pid])
    case KillAux(pid) => k.(aux := Remove(k.aux, pid), dying := k.dying + [pid])
    case KillBlocked(pid) =>
      k.(blockeds := Cut(k.blockeds, FirstOf(k.blockeds, pid)), dying := k.dying + [pid])
  }

  function Next(k: Kernel, a: Step): (r: Kernel)
    requires Enabled(k, a)
  {
    match a
    case Admission(s) => AdmitNext(k, s)
    case Dispatch(s) => DispatchNext(k, s)
    case Reply(s) => ReplyNext(k, s)
    case Wakeup(s) => WakeNext(k, s)
    case Creation(s) => CreateNext(k, s)
    case Change(s) => ChangeNext(k, s)
    case Kill(s) => KillNext(k, s)
  }

  /** The process comes back to be deleted. */
  predicate Final(reason: Reason) {
    reason == Exit || reason == Error || reason == Console
  }

  /** The returned process is deleted, queued or blocked, by the reason; for an unheard reason it is dropped. */
  function Handled(k: Kernel, pid: int, reason: Reason): (r: Kernel) {
    match reason
    case Exit => k.(freePids := k.freePids + [pid], response := Freed)
    case Error => k.(freePids := k.freePids + [pid], response := Freed)
    case Console => k.(freePids := k.freePids + [pid], response := Freed)
    case EndOfQuantum => k.(readys := k.readys + [pid], response := Requeued)
    case Io(operation) =>
      k.(blockeds := k.blockeds + [Waiter(pid, operation)], ios := k.ios + [pid], response := Closing)
    case Wait(name) => k.(blockeds := k.blockeds + [Waiter(pid, name)], response := Closing)
    case Unheard => k.(response := Closing)
  }

  // ----- the invariant -----

  /** How often a pid is with a thread or on the CPU. */
  function InHand(k: Kernel, p: int): (n: nat) {
    One(k.dispatcher.Holding? && k.dispatcher.pid == p) + One(k.cpu.Running? && k.cpu.pid == p)
    + One(k.response.Returned? && k.response.pid == p) + One(k.shell.Making? && k.shell.pid == p)
  }

  /** How often a pid is anywhere. */
  function Places(k: Kernel, p: int): (n: nat) {
    Occurs(k.news, p) + Occurs(k.readys, p) + Occurs(k.aux, p) + Standing(k.blockeds, p)
    + Occurs(k.waking, p) + Occurs(k.dying, p) + InHand(k, p) + Occurs(k.freePids, p)
  }

  /** Each pid handed out is in exactly one place: one queue, the list, the CPU, one thread's hands, or free. */
  ghost predicate OnePlace(k: Kernel) {
    k.nextPid >= 1 && forall p :: Places(k, p) == One(1 <= p < k.nextPid)
  }

  ghost predicate NewsCounted(k: Kernel) {
    k.newsAvailable + NewsTokens(k.admitter, k.shell) == |k.news|
  }

  /** Announcements of NEW processes that a thread has taken or not yet made. */
  function NewsTokens(a: Admitter, s: Shell): (n: nat) {
    One(a == AwaitSlot || a == Moving) + One(s == Made)
  }

  predicate Picking(d: Dispatcher) {
    d == Choosing || d == FromAux || d == FromReady
  }

  ghost predicate ReadysCounted(k: Kernel) {
    && k.readysAvailable + k.woken + ReadyTokens(k.admitter, k.dispatcher, k.response) == |k.readys| + |k.aux|
    && (k.dispatcher == FromAux ==> |k.aux| > 0)
    && (k.dispatcher == FromReady ==> |k.readys| > 0)
    && (k.planner != VRR ==> k.aux == [] && k.dispatcher != Choosing && k.dispatcher != FromAux)
  }

  /** Announcements of ready processes that a thread has taken or not yet made. */
  function ReadyTokens(a: Admitter, d: Dispatcher, r: Response): (n: nat) {
    One(a == Announcing) + One(Picking(d)) + One(r == Requeued)
  }

  predicate HasCpu(d: Dispatcher) {
    d == AwaitReady || Picking(d) || d.Holding? || d == Probing
  }

  /** The CPU is with one thread or one process. */
  ghost predicate OneRunning(k: Kernel) {
    k.running + WithCpu(k.dispatcher, k.cpu, k.response) == 1
  }

  function WithCpu(d: Dispatcher, c: Cpu, r: Response): (n: nat) {
    One(HasCpu(d)) + One(c.Running?) + One(r != Listening)
  }

  /** The slots the degree allows now: a change under way has given or taken some already. */
  function Allowance(degree: int, s: Shell): (n: int) {
    match s
    case Raising(done, _) => degree + done
    case Lowering(done, _) => degree - done
    case _ => degree
  }

  /** Admitted processes and slots on their way back. */
  function SlotsHeld(k: Kernel): (n: nat) {
    |k.readys| + |k.aux| + |k.blockeds| + |k.waking| + |k.dying| + k.dead
    + ThreadSlots(k.admitter, k.dispatcher, k.cpu, k.response)
  }

  function ThreadSlots(a: Admitter, d: Dispatcher, c: Cpu, r: Response): (n: nat) {
    One(a == Moving) + One(d.Holding?) + One(c.Running?) + One(r.Returned? || r == Freed)
  }

  ghost predicate SlotsCounted(k: Kernel) {
    k.readysMax + SlotsHeld(k) == Allowance(k.degree, k.shell)
    && (k.shell.Raising? ==> 0 <= k.shell.done <= k.shell.to - k.degree)
    && (k.shell.Lowering? ==> 0 <= k.shell.done <= k.degree - k.shell.to && k.shell.to > 0)
  }

  /** An interface answers only for processes in the blocked list, and what they left is no resource's name. */
  ghost predicate IosBlocked(k: Kernel) {
    && (forall p :: Occurs(k.ios, p) <= Standing(k.blockeds, p))
    && (forall w :: w in k.blockeds && w.pid in k.ios ==> w.info !in k.resources)
  }

  /** Every thread about to wake a waiter of a resource has one of its own to find. */
  ghost predicate Claimed(k: Kernel) {
    && (forall x :: Occurs(k.seen, x) <= WaitersIn(k.blockeds, x))
    && (forall x :: x in k.seen ==> x in k.resources)
  }

  ghost predicate Inv(k: Kernel) {
    && !k.crashed && OnePlace(k) && NewsCounted(k) && ReadysCounted(k) && OneRunning(k) && SlotsCounted(k)
    && IosBlocked(k) && Claimed(k)
  }

  /** A resource has a waiter that no thread is about to wake. */
  predicate Unclaimed(k: Kernel, name: string) {
    WaitersIn(k.blockeds, name) > Occurs(k.seen, name)
  }

  /**
   The steps the kernel is made for: no process is killed in NEW, READY or AUX, while an interface works for it
   or while a thread is about to wake it; no search finds a waiter that another thread is about to wake; the
   CPU gives one of the reasons the kernel knows, and no operation of an interface is a resource's name.
   */
  predicate Sound(k: Kernel, a: Step) {
    match a
    case Kill(s) =>
      s.KillBlocked? && s.pid !in k.ios
      && var i := FirstOf(k.blockeds, s.pid); i != -1 ==> Unclaimed(k, k.blockeds[i].info)
    case Reply(s) =>
      s.Handle? && k.response.Returned? ==>
        k.response.reason != Unheard && (k.response.reason.Io? ==> k.response.reason.operation !in k.resources)
    case Wakeup(s) => s.SeeWaiter? ==> Unclaimed(k, s.name)
    case _ => true
  }
}
