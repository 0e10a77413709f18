/**
 The scheduler and the resources together. Both models keep the blocked list and the threads that are about to
 wake a waiter; here their steps are taken together, and what each proves holds of one kernel.
 */
module KernelResources {
  import opened BlockedList
  import opened CTypes
  import opened Lists
  import K = KernelModel
  import KI = KernelInvariant
  import KR = KernelRuns
  import R = ResourceModel
  import RS = ResourceSafety

  datatype Joint = Joint(k: K.Kernel, s: R.System)

  /** One blocked list, one set of claims, one fate. */
  ghost predicate Agree(j: Joint) {
    && j.s.store.blocked == j.k.blockeds && j.s.seen == j.k.seen
    && j.s.store.names == j.k.resources && j.s.crashed == j.k.crashed
  }

  /** A step of the scheduler only, of the resources only, or of both at once. */
  datatype Step =
    | Scheduler(a: K.Step)
    | Table(b: R.Step)
    | Both(a: K.Step, b: R.Step)

  /** The steps of the scheduler that leave the blocked list and the claims alone. */
  predicate Apart(k: K.Kernel, a: K.Step) {
    match a
    case Reply(s) => s.Handle? && k.response.Returned? ==> !k.response.reason.Io? && !k.response.reason.Wait?
    case Wakeup(s) => !s.FinishIo? && !s.FailIo? && !s.SeeWaiter? && !s.TakeWaiter?
    case Kill(s) => !s.KillBlocked?
    case _ => true
  }

  /** The resource a SIGNAL or a release searches a waiter for, if it does. */
  function Searches(s: R.System, b: R.Step): (r: Option<string>)
    requires R.Enabled(s, b)
  {
    match b
    case Signal(pid, name) =>
      if R.SignalFor(s.store, pid, name).1 == R.Continue && FirstWaiter(s.store.blocked, name) != -1 then Some(name)
      else None
    case Release(t) =>
      var name := s.store.records[t].held[0];
      if FirstWaiter(s.store.blocked, name) != -1 then Some(name) else None
    case _ => None
  }

  /** What a step of both is: the two sides of one piece of code. */
  predicate Sides(j: Joint, a: K.Step, b: R.Step)
    requires K.Enabled(j.k, a) && R.Enabled(j.s, b)
  {
    match b
    case Arrive =>
      a == K.Reply(K.Handle) && j.k.response == K.Returned(j.s.cpu.pid, K.Wait(j.s.cpu.name))
    case BlockIo(pid, operation) =>
      a == K.Reply(K.Handle) && j.k.response == K.Returned(pid, K.Io(operation))
    case Signal(_, _) => Searches(j.s, b).Some? && a == K.Wakeup(K.SeeWaiter(Searches(j.s, b).value))
    case Release(_) => Searches(j.s, b).Some? && a == K.Wakeup(K.SeeWaiter(Searches(j.s, b).value))
    case Wake(name) => a == K.Wakeup(K.TakeWaiter(name))
    case EndIo(i) =>
      var pid := j.s.store.blocked[i].pid;
      i == FirstOf(j.s.store.blocked, pid) && (a == K.Wakeup(K.FinishIo(pid)) || a == K.Wakeup(K.FailIo(pid)))
    case KillWaiter(i) =>
      var pid := j.s.store.blocked[i].pid;
      i == FirstOf(j.s.store.blocked, pid) && a == K.Kill(K.KillBlocked(pid))
    case _ => false
  }

  predicate Enabled(j: Joint, x: Step) {
    match x
    case Scheduler(a) => K.Enabled(j.k, a) && Apart(j.k, a)
    case Table(b) =>
      R.Enabled(j.s, b) && (b.Wait? || b.NewRecord? || ((b.Signal? || b.Release?) && Searches(j.s, b).None?))
    case Both(a, b) => K.Enabled(j.k, a) && R.Enabled(j.s, b) && Sides(j, a, b)
  }

  function Next(j: Joint, x: Step): (r: Joint)
    requires Enabled(j, x)
  {
    match x
    case Scheduler(a) => j.(k := K.Next(j.k, a), s := j.s.(crashed := K.Next(j.k, a).crashed))
    case Table(b) => j.(s := R.Next(j.s, b))
    case Both(a, b) => Joint(K.Next(j.k, a), R.Next(j.s, b))
  }

  /** A scheduler step that leaves list and claims alone. */
  lemma ApartKeeps(k: K.Kernel, a: K.Step)
    requires K.Enabled(k, a) && Apart(k, a)
    ensures var r := K.Next(k, a); r.blockeds == k.blockeds && r.seen == k.seen && r.resources == k.resources
  {
    hide Remove;
  }

  lemma BothAgree(j: Joint, a: K.Step, b: R.Step)
    requires Agree(j) && Enabled(j, Both(a, b))
    ensures Agree(Next(j, Both(a, b)))
  {
    hide Remove, Cut, FirstWaiter, FirstOf, R.Index, R.RecordOf, R.Unrecording;
  }

  lemma TableAgree(j: Joint, b: R.Step)
    requires Agree(j) && Enabled(j, Table(b))
    ensures Agree(Next(j, Table(b)))
  {
    hide Remove, Cut, FirstWaiter, R.Index, R.RecordOf, R.Recording, R.Unrecording;
  }

  /** The two models stay one kernel; in particular a waking crashes in both or in neither. */
  lemma StepAgrees(j: Joint, x: Step)
    requires Agree(j) && Enabled(j, x)
    ensures Agree(Next(j, x))
  {
    match x
    case Scheduler(a) => hide K.Next, K.Enabled; ApartKeeps(j.k, a);
    case Table(b) => TableAgree(j, b);
    case Both(a, b) => BothAgree(j, a, b);
  }

  // ----- what one model asks of a step, the other does too -----

  /** What the resources ask of a step. */
  ghost predicate Careful(s: R.System, b: R.Step)
    requires R.Enabled(s, b)
  {
    && (forall x :: x in s.store.names ==> RS.Unclaimed(s, b, x))
    && (forall x :: x in s.store.names ==> RS.Concerns(b, x) ==> RS.OnRecord(s.store, b))
  }

  /** A search is sound for the scheduler exactly when it claims a waiter nobody else has claimed. */
  lemma SearchSoundIff(j: Joint, a: K.Step, b: R.Step)
    requires Agree(j) && Enabled(j, Both(a, b)) && (b.Signal? || b.Release?)
    ensures K.Sound(j.k, a) <==> forall x :: x in j.s.store.names ==> RS.Unclaimed(j.s, b, x)
  {
    hide Remove, Cut, FirstWaiter, Occurs, WaitersIn, R.RecordOf, R.Unrecording;
    var name := Searches(j.s, b).value;
    FirstWaiterIff(j.s.store.blocked, name);
  }

  /** What the resources ask of a step of both is enough for the scheduler. */
  lemma CarefulSound(j: Joint, a: K.Step, b: R.Step)
    requires Agree(j) && K.Inv(j.k) && Enabled(j, Both(a, b)) && Careful(j.s, b)
    ensures K.Sound(j.k, a)
  {
    hide Remove, Cut, FirstWaiter, FirstOf, Occurs, WaitersIn, R.Index, R.RecordOf, R.SignalFor;
    hide K.OnePlace, K.NewsCounted, K.ReadysCounted, K.OneRunning, K.SlotsCounted;
    match b
    case Signal(_, _) => SearchSoundIff(j, a, b);
    case Release(_) => SearchSoundIff(j, a, b);
    case KillWaiter(i) =>
      assert j.k.blockeds[i] in j.k.blockeds;
      assert RS.Unclaimed(j.s, b, j.k.blockeds[i].info);
    case _ =>
  }

  // ----- runs -----

  ghost predicate Possible(j: Joint, run: seq<Step>)
    decreases |run|
  {
    |run| == 0 || (Enabled(j, run[0]) && Possible(Next(j, run[0]), run[1..]))
  }

  ghost function After(j: Joint, run: seq<Step>): (r: Joint)
    requires Possible(j, run)
    decreases |run|
  {
    if |run| == 0 then j else After(Next(j, run[0]), run[1..])
  }

  /** Each step is sound for the side, or careful for the sides, it belongs to. */
  ghost predicate Right(j: Joint, x: Step)
    requires Enabled(j, x)
  {
    match x
    case Scheduler(a) => K.Sound(j.k, a)
    case Table(b) => Careful(j.s, b)
    case Both(a, b) => Careful(j.s, b)
  }

  ghost predicate AllRight(j: Joint, run: seq<Step>)
    requires Possible(j, run)
    decreases |run|
  {
    |run| == 0 || (Right(j, run[0]) && AllRight(Next(j, run[0]), run[1..]))
  }

  ghost predicate Safe(j: Joint, x: string, configured: int) {
    Agree(j) && K.Inv(j.k) && RS.AllCovered(j.s) && RS.Conserved(j.s.store, x, configured)
  }

  lemma TableSafe(s: R.System, b: R.Step, x: string, configured: int)
    requires R.Enabled(s, b) && Careful(s, b) && RS.AllCovered(s) && RS.Conserved(s.store, x, configured)
    ensures var r := R.Next(s, b); RS.AllCovered(r) && RS.Conserved(r.store, x, configured) && !r.crashed
  {
    hide R.Next, R.Enabled, RS.Covered, RS.Conserved, RS.Unclaimed, RS.Known;
    RS.NoCrash(s, b);
    RS.SameNames(s, b);
    RS.KnownKeeps(s, b);
    forall y | y in s.store.names
      ensures RS.Covered(R.Next(s, b), y)
    {
      RS.CoveredIff(s, b, y);
    }
    RS.ConservedName(s.store, x, configured);
    RS.ConservedIff(s, b, x, configured);
  }

  lemma SameCovered(s: R.System, r: R.System, x: string, configured: int)
    requires r == s.(crashed := r.crashed) && RS.AllCovered(s) && RS.Conserved(s.store, x, configured)
    ensures RS.AllCovered(r) && RS.Conserved(r.store, x, configured)
  {
    forall y | y in r.store.names
      ensures RS.Covered(r, y)
    {
      assert RS.Covered(s, y);
    }
  }

  lemma StepSafe(j: Joint, x: Step, name: string, configured: int)
    requires Safe(j, name, configured) && Enabled(j, x) && Right(j, x)
    ensures Safe(Next(j, x), name, configured)
  {
    hide K.Next, K.Enabled, K.Inv, K.Sound, R.Next, R.Enabled, Agree, Apart, Sides, Careful;
    hide RS.AllCovered, RS.Conserved;
    StepAgrees(j, x);
    match x
    case Scheduler(a) =>
      KI.StepKeeps(j.k, a);
      SameCovered(j.s, Next(j, x).s, name, configured);
    case Table(b) => TableSafe(j.s, b, name, configured);
    case Both(a, b) =>
      CarefulSound(j, a, b);
      KI.StepKeeps(j.k, a);
      TableSafe(j.s, b, name, configured);
  }

  lemma {:induction false} RunSafe(j: Joint, run: seq<Step>, name: string, configured: int)
    requires Safe(j, name, configured) && Possible(j, run) && AllRight(j, run)
    ensures Safe(After(j, run), name, configured)
    decreases |run|
  {
    hide Safe, Next, Enabled, Right;
    if |run| > 0 {
      StepSafe(j, run[0], name, configured);
      RunSafe(Next(j, run[0]), run[1..], name, configured);
    }
  }

  function Start(planner: K.Planner, names: seq<string>, instances: seq<int>, degree: nat): (j: Joint) {
    Joint(K.Initial(planner, names, degree), RS.Fresh(names, instances))
  }

  /**
   Over all interleavings of the whole kernel from the start, as long as each step is right where it is taken: no
   empty queue is popped and no search comes back empty, the scheduler's invariant holds, and no resource is given
   out more often than it was configured.
   */
  lemma KernelSafe(planner: K.Planner, names: seq<string>, instances: seq<int>, degree: nat, run: seq<Step>, x: string)
    requires |names| == |instances| && x in names && forall i :: 0 <= i < |instances| ==> instances[i] >= 0
    requires Possible(Start(planner, names, instances, degree), run)
    requires AllRight(Start(planner, names, instances, degree), run)
    ensures var j := After(Start(planner, names, instances, degree), run);
            && K.Inv(j.k) && !j.k.crashed && !j.s.crashed
            && R.Granted(j.s, x) <= R.Instances(RS.Fresh(names, instances).store, x)
  {
    hide K.Inv, Possible, AllRight, RS.AllCovered, RS.Conserved, R.Granted, RS.Covered;
    var j := Start(planner, names, instances, degree);
    var configured := R.Instances(j.s.store, x);
    KR.InitialInv(planner, names, degree);
    RS.FreshStart(names, instances);
    RunSafe(j, run, x, configured);
    var r := After(j, run);
    RS.ConservedName(r.s.store, x, configured);
    CoveredOne(r.s, x);
    RS.NeverOverGranted(r.s, x, configured);
    KR.NotCrashed(r.k);
  }

  lemma CoveredOne(s: R.System, x: string)
    requires RS.AllCovered(s) && x in s.store.names
    ensures RS.Covered(s, x)
  {
  }
}
