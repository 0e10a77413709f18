/** What WAIT, SIGNAL, release and waking keep over all interleavings, and where they do not. */
module ResourceSafety {
  import opened CTypes
  import opened Lists
  import opened BlockedList
  import opened ResourceModel

  // ----- counting lists -----

  lemma {:induction false} RecordedUpdate(records: seq<Record>, t: nat, r: Record, x: string)
    requires t < |records|
    ensures Recorded(records[t := r], x) == Recorded(records, x) - Occurs(records[t].held, x) + Occurs(r.held, x)
  {
    var after := records[t := r];
    if t == 0 {
      assert after[1..] == records[1..];
    } else {
      assert after[1..] == records[1..][t - 1 := r];
      RecordedUpdate(records[1..], t - 1, r, x);
    }
  }

  lemma {:induction false} RecordedAppend(records: seq<Record>, pid: int, x: string)
    ensures Recorded(records + [Record(pid, [])], x) == Recorded(records, x)
  {
    var after := records + [Record(pid, [])];
    if |records| == 0 {
      assert after[1..] == [] && after[0].held == [];
    } else {
      assert after[1..] == records[1..] + [Record(pid, [])];
      RecordedAppend(records[1..], pid, x);
    }
  }

  // ----- conservation -----

  /** What is left of each resource and what is on record add up to what was configured. */
  ghost predicate Conserved(s: Store, x: string, configured: int) {
    Shaped(s) && x in s.names && Instances(s, x) + Recorded(s.records, x) == configured
  }

  /** Whether the process has what a step takes from its record, or a record to write to. */
  predicate OnRecord(s: Store, a: Step) {
    match a
    case Wait(pid, name) => RecordOf(s.records, pid) != -1
    case Signal(pid, name) => var t := RecordOf(s.records, pid); t != -1 && name in s.records[t].held
    case _ => true
  }

  predicate Concerns(a: Step, x: string) {
    (a.Wait? || a.Signal?) && a.name == x
  }

  lemma WaitConserves(s: Store, pid: int, name: string, x: string, configured: int)
    requires Conserved(s, x, configured)
    ensures Conserved(WaitFor(s, pid, name).0, x, configured) <==> name == x ==> RecordOf(s.records, pid) != -1
  {
    hide Occurs, Recorded;
    var t := RecordOf(s.records, pid);
    if t != -1 {
      OccursAppend(s.records[t].held, name, x);
      RecordedUpdate(s.records, t, Record(s.records[t].pid, s.records[t].held + [name]), x);
    }
  }

  lemma SignalConserves(s: Store, pid: int, name: string, x: string, configured: int)
    requires Conserved(s, x, configured)
    ensures Conserved(SignalFor(s, pid, name).0, x, configured) <==> name == x ==> OnRecord(s, Signal(pid, name))
  {
    hide Occurs, Recorded, Remove;
    var t := RecordOf(s.records, pid);
    if t != -1 {
      OccursRemove(s.records[t].held, name, x);
      RecordedUpdate(s.records, t, Record(s.records[t].pid, Remove(s.records[t].held, name)), x);
    }
  }

  lemma ReleaseConserves(s: Store, t: nat, x: string, configured: int)
    requires Conserved(s, x, configured) && t < |s.records| && s.records[t].held != []
    ensures Conserved(ReleaseFirst(s, t), x, configured)
  {
    hide Occurs, Recorded, Remove;
    var name := s.records[t].held[0];
    OccursRemove(s.records[t].held, name, x);
    RecordedUpdate(s.records, t, Record(s.records[t].pid, Remove(s.records[t].held, name)), x);
  }

  /** A step conserves a resource exactly when a WAIT for it has a record to go to and a SIGNAL one to take. */
  lemma ConservedIff(s: System, a: Step, x: string, configured: int)
    requires Enabled(s, a) && Conserved(s.store, x, configured)
    ensures Conserved(Next(s, a).store, x, configured) <==> Concerns(a, x) ==> OnRecord(s.store, a)
  {
    hide Occurs, Recorded, Remove, ReleaseFirst, WaitFor, SignalFor, FirstWaiter, RecordOf;
    match a
    case Wait(pid, name) => WaitConserves(s.store, pid, name, x, configured);
    case Signal(pid, name) => SignalConserves(s.store, pid, name, x, configured);
    case Release(t) => ReleaseConserves(s.store, t, x, configured);
    case NewRecord(pid) => RecordedAppend(s.store.records, pid, x);
    case _ =>
  }

  // ----- nothing is granted twice -----

  /**
   Every thread about to wake a waiter finds one that no other thread has seen, and after all the wakings
   nobody runs without an instance.
   */
  ghost predicate Covered(s: System, x: string) {
    && Shaped(s.store) && x in s.store.names
    && Instances(s.store, x) + Waiting(s, x) >= Occurs(s.seen, x)
    && WaitersIn(s.store.blocked, x) >= Occurs(s.seen, x)
  }

  lemma LookForSeen(s: System, store: Store, name: string, x: string)
    ensures Occurs(LookFor(s, store, name).seen, x)
         == Occurs(s.seen, x) + if name == x && WaitersIn(store.blocked, x) > 0 then 1 else 0
    ensures LookFor(s, store, name).store == store && LookFor(s, store, name).cpu == s.cpu
  {
    OccursAppend(s.seen, name, x);
    FirstWaiterIff(store.blocked, name);
  }

  function InstancesAdded(s: System, a: Step, x: string): int
    requires Enabled(s, a)
  {
    match a
    case Wait(_, name) => -One(name == x)
    case Signal(_, name) => One(name == x)
    case Release(t) => One(s.store.records[t].held[0] == x)
    case _ => 0
  }

  function WaitersAdded(s: System, a: Step, x: string): int
    requires Enabled(s, a)
  {
    match a
    case Arrive => One(s.cpu.name == x)
    case Wake(name) => -One(name == x)
    case KillWaiter(i) => -One(s.store.blocked[i].info == x)
    case _ => 0
  }

  function WaitingAdded(s: System, a: Step, x: string): int
    requires Enabled(s, a) && x in s.store.names
  {
    match a
    case Wait(_, name) => One(name == x && Instances(s.store, x) <= 0)
    case Wake(name) => -One(name == x)
    case KillWaiter(i) => -One(s.store.blocked[i].info == x)
    case _ => 0
  }

  function SeenAdded(s: System, a: Step, x: string): int
    requires Enabled(s, a) && x in s.store.names
  {
    var found := WaitersIn(s.store.blocked, x) > 0;
    match a
    case Signal(_, name) => One(name == x && Instances(s.store, x) >= -1 && found)
    case Release(t) => One(s.store.records[t].held[0] == x && found)
    case Wake(name) => -One(name == x)
    case _ => 0
  }

  lemma StepInstances(s: System, a: Step, x: string)
    requires Enabled(s, a) && x in s.store.names && !Next(s, a).crashed
    ensures Instances(Next(s, a).store, x) == Instances(s.store, x) + InstancesAdded(s, a, x)
  {
    hide Remove, FirstWaiter, RecordOf, Recording, Unrecording;
  }

  lemma StepWaiters(s: System, a: Step, x: string)
    requires Enabled(s, a) && x in s.store.names && !Next(s, a).crashed
    ensures WaitersIn(Next(s, a).store.blocked, x) == WaitersIn(s.store.blocked, x) + WaitersAdded(s, a, x)
    ensures Waiting(Next(s, a), x) == Waiting(s, x) + WaitingAdded(s, a, x)
  {
    hide WaitersIn, Remove, FirstWaiter, RecordOf, Recording, Unrecording;
    match a
    case Arrive => BlockedAppend(s.store.blocked, Waiter(s.cpu.pid, s.cpu.name), x, 0);
    case Wake(name) => BlockedCut(s.store.blocked, FirstWaiter(s.store.blocked, name), x, 0);
    case BlockIo(pid, operation) => BlockedAppend(s.store.blocked, Waiter(pid, operation), x, 0);
    case EndIo(i) => BlockedCut(s.store.blocked, i, x, 0);
    case KillWaiter(i) => BlockedCut(s.store.blocked, i, x, 0);
    case _ =>
  }

  lemma StepSeen(s: System, a: Step, x: string)
    requires Enabled(s, a) && x in s.store.names && !Next(s, a).crashed
    ensures Occurs(Next(s, a).seen, x) == Occurs(s.seen, x) + SeenAdded(s, a, x)
  {
    hide Occurs, WaitersIn, Remove, FirstWaiter, RecordOf, Recording, Unrecording;
    match a
    case Signal(pid, name) => LookForSeen(s, SignalFor(s.store, pid, name).0, name, x);
    case Release(t) => LookForSeen(s, ReleaseFirst(s.store, t), s.store.records[t].held[0], x);
    case Wake(name) => OccursRemove(s.seen, name, x);
    case _ =>
  }

  /** Instances, waiters and claims after a step. */
  lemma StepNumbers(s: System, a: Step, x: string)
    requires Enabled(s, a) && x in s.store.names && !Next(s, a).crashed
    ensures var r := Next(s, a);
            && Instances(r.store, x) == Instances(s.store, x) + InstancesAdded(s, a, x)
            && Waiting(r, x) == Waiting(s, x) + WaitingAdded(s, a, x)
            && WaitersIn(r.store.blocked, x) == WaitersIn(s.store.blocked, x) + WaitersAdded(s, a, x)
            && Occurs(r.seen, x) == Occurs(s.seen, x) + SeenAdded(s, a, x)
  {
    hide Next, Enabled;
    StepInstances(s, a, x);
    StepWaiters(s, a, x);
    StepSeen(s, a, x);
  }

  /** The condition under which a step keeps a resource covered, from what can be seen before it. */
  predicate Unclaimed(s: System, a: Step, x: string)
    requires Enabled(s, a) && x in s.store.names
  {
    var waiters, claimed := WaitersIn(s.store.blocked, x), Occurs(s.seen, x);
    match a
    case Signal(_, name) => name == x && Instances(s.store, x) >= -1 ==> waiters == 0 || waiters > claimed
    case Release(t) => s.store.records[t].held[0] == x ==> waiters == 0 || waiters > claimed
    case KillWaiter(i) =>
      s.store.blocked[i].info == x ==> waiters > claimed && Instances(s.store, x) + Waiting(s, x) > claimed
    case _ => true
  }

  /**
   Exactly when a step keeps a resource covered: a search that finds waiters must find one that no other thread
   is about to wake, and a waiter is killed only while there is an instance to spare.
   */
  lemma CoveredIff(s: System, a: Step, x: string)
    requires Enabled(s, a) && Covered(s, x)
    ensures !Next(s, a).crashed || (a.Wake? && a.name != x)
    ensures !Next(s, a).crashed ==> (Covered(Next(s, a), x) <==> Unclaimed(s, a, x))
  {
    hide Next, Waiting, Occurs, WaitersIn;
    WaitingAtLeast(s, x);
    if a.Wake? {
      WakeCrashesIff(s, a.name);
      OccursRemove(s.seen, a.name, a.name);
    }
    OnlyWakeCrashes(s, a);
    if !Next(s, a).crashed {
      StepNumbers(s, a, x);
    }
  }

  lemma WaitingAtLeast(s: System, x: string)
    ensures Waiting(s, x) >= WaitersIn(s.store.blocked, x)
  {
  }

  lemma OnlyWakeCrashes(s: System, a: Step)
    requires Enabled(s, a)
    ensures Next(s, a).crashed ==> a.Wake?
  {
  }

  /** While a resource is conserved and covered, processes have been given no more than was configured. */
  lemma NeverOverGranted(s: System, x: string, configured: int)
    requires Conserved(s.store, x, configured) && Covered(s, x)
    ensures Granted(s, x) + Occurs(s.seen, x) <= configured
  {
  }

  // ----- no signal lost, no waiter forgotten -----

  function Lacking(n: int): (k: nat) { if n < 0 then -n else 0 }

  /** As many wait, not counting those about to be woken, as instances are lacking. */
  ghost predicate Balanced(s: System, x: string) {
    Shaped(s.store) && x in s.store.names && Waiting(s, x) - Occurs(s.seen, x) == Lacking(Instances(s.store, x))
  }

  /** A release finds whom to wake exactly when it should: someone is in the blocked list iff instances lack. */
  predicate Agrees(s: System, x: string)
    requires Shaped(s.store) && x in s.store.names
  {
    WaitersIn(s.store.blocked, x) > 0 <==> Instances(s.store, x) < 0
  }

  /** The condition under which a step keeps a resource balanced, from what can be seen before it. */
  predicate Fair(s: System, a: Step, x: string)
    requires Enabled(s, a) && x in s.store.names
  {
    match a
    case Signal(_, name) => name == x ==> Agrees(s, x) && Instances(s.store, x) >= -1
    case Release(t) => s.store.records[t].held[0] == x ==> Agrees(s, x)
    case KillWaiter(i) => s.store.blocked[i].info != x
    case _ => true
  }

  /**
   Exactly when a step keeps the waiters in balance: a SIGNAL only while at most one instance is lacking (with
   more it wakes nobody and never answers), a release only when the blocked list shows the waiters.
   */
  lemma BalancedIff(s: System, a: Step, x: string)
    requires Enabled(s, a) && Balanced(s, x) && !Next(s, a).crashed
    ensures Balanced(Next(s, a), x) <==> Fair(s, a, x)
  {
    hide Next, Occurs, WaitersIn;
    StepNumbers(s, a, x);
  }

  /** SIGNAL leaves the CPU without an answer exactly when two or more instances were lacking. */
  lemma SignalHangsIff(s: System, pid: int, name: string)
    requires Enabled(s, Signal(pid, name))
    ensures Next(s, Signal(pid, name)).cpu == Hung <==> name in s.store.names && Instances(s.store, name) < -1
  {
  }

  // ----- the answers -----

  /** What the answers to a WAIT mean: the resource is not known and nothing happened, none was left, or it was given. */
  lemma WaitAnswers(s: Store, pid: int, name: string)
    requires Shaped(s)
    ensures var r := WaitFor(s, pid, name);
            && (r.1 == EmptyInstance <==> name !in s.names)
            && (r.1 == Block <==> name in s.names && Instances(s, name) <= 0)
            && (r.1 == Continue <==> name in s.names && Instances(s, name) > 0)
            && (name !in s.names ==> r.0 == s)
            && (name in s.names ==> Instances(r.0, name) == Instances(s, name) - 1)
            && r.0.blocked == s.blocked
  {
  }

  /** And to a SIGNAL: not known, no answer while instances are still lacking, or done. */
  lemma SignalAnswers(s: Store, pid: int, name: string)
    requires Shaped(s)
    ensures var r := SignalFor(s, pid, name);
            && (r.1 == EmptyInstance <==> name !in s.names)
            && (r.1 == NoReply <==> name in s.names && Instances(s, name) < -1)
            && (r.1 == Continue <==> name in s.names && Instances(s, name) >= -1)
            && (name !in s.names ==> r.0 == s)
            && (name in s.names ==> Instances(r.0, name) == Instances(s, name) + 1)
            && r.0.blocked == s.blocked
  {
  }

  /** How many units of a resource are on the record of a process. */
  function HeldBy(records: seq<Record>, pid: int, x: string): (n: nat) {
    var t := RecordOf(records, pid);
    if t == -1 then 0 else Occurs(records[t].held, x)
  }

  /** One record changes at a place that is found for its pid: only what that process has changes. */
  lemma {:induction false} HeldUpdate(records: seq<Record>, t: nat, held: seq<string>, pid: int, x: string)
    requires t < |records| && RecordOf(records, records[t].pid) == t
    ensures HeldBy(records[t := Record(records[t].pid, held)], pid, x)
         == if pid == records[t].pid then Occurs(held, x) else HeldBy(records, pid, x)
  {
    var after := records[t := Record(records[t].pid, held)];
    SamePlaces(records, after, pid);
  }

  lemma {:induction false} SamePlaces(a: seq<Record>, b: seq<Record>, pid: int)
    requires |a| == |b| && forall i :: 0 <= i < |a| ==> a[i].pid == b[i].pid
    ensures RecordOf(a, pid) == RecordOf(b, pid)
  {
    if |a| > 0 {
      SamePlaces(a[1..], b[1..], pid);
    }
  }

  /** A WAIT is put on the record of the process that asks, a SIGNAL taken off it, and no other record changes. */
  lemma OnItsRecord(s: Store, p: int, name: string, pid: int, x: string)
    requires Shaped(s)
    ensures var w, g := WaitFor(s, p, name).0, SignalFor(s, p, name).0;
            var own := pid == p && x == name && name in s.names && RecordOf(s.records, p) != -1;
            && HeldBy(w.records, pid, x) == HeldBy(s.records, pid, x) + One(own)
            && HeldBy(g.records, pid, x) == HeldBy(s.records, pid, x) - One(own && HeldBy(s.records, p, name) > 0)
  {
    hide Occurs, Remove;
    var t := RecordOf(s.records, p);
    if t != -1 {
      var held := s.records[t].held;
      OccursAppend(held, name, x);
      OccursRemove(held, name, x);
      OccursIn(held, name);
      HeldUpdate(s.records, t, held + [name], pid, x);
      HeldUpdate(s.records, t, Remove(held, name), pid, x);
    }
  }

  /**
   A process is told to block, and the CPU is left waiting for an answer, in exactly these cases; in every other the
   process goes on with its instructions or, for an unknown resource, is ended by the CPU.
   */
  lemma AnswersOnCpu(s: System, pid: int, name: string)
    requires Enabled(s, Wait(pid, name))
    ensures var w, g := Next(s, Wait(pid, name)), Next(s, Signal(pid, name));
            && (w.cpu == Blocking(pid, name) <==> name in s.store.names && Instances(s.store, name) <= 0)
            && (w.cpu != Blocking(pid, name) ==> w.cpu == Free)
            && (g.cpu == Hung <==> name in s.store.names && Instances(s.store, name) < -1)
            && (g.cpu != Hung ==> g.cpu == Free)
  {
    hide FirstWaiter, Recording, Unrecording;
  }

  // ----- runs -----

  ghost predicate Possible(s: System, run: seq<Step>)
    decreases |run|
  {
    |run| == 0 || (Enabled(s, run[0]) && Possible(Next(s, run[0]), run[1..]))
  }

  ghost function After(s: System, run: seq<Step>): (r: System)
    requires Possible(s, run)
    decreases |run|
  {
    if |run| == 0 then s else After(Next(s, run[0]), run[1..])
  }

  /** WAITs of processes with a record, SIGNALs by holders, no search for a waiter already claimed, no kill. */
  ghost predicate Careful(s: System, run: seq<Step>)
    requires Possible(s, run)
    decreases |run|
  {
    |run| == 0 || (
      && (forall x :: x in s.store.names ==> Unclaimed(s, run[0], x))
      && (forall x :: x in s.store.names ==> Concerns(run[0], x) ==> OnRecord(s.store, run[0]))
      && Careful(Next(s, run[0]), run[1..]))
  }

  /** Only resources the kernel knows are on record or searched for. */
  ghost predicate Known(s: System) {
    && (forall x :: x in s.seen ==> x in s.store.names)
    && (forall r, x :: r in s.store.records && x in r.held ==> x in s.store.names)
  }

  lemma KnownKeeps(s: System, a: Step)
    requires Enabled(s, a) && Known(s)
    ensures Known(Next(s, a))
  {
    hide Remove, FirstWaiter;
    match a
    case Signal(pid, name) =>
      var t := RecordOf(s.store.records, pid);
      if t != -1 { RemoveIn(s.store.records[t].held, name); }
    case Release(t) =>
      var r := s.store.records[t];
      assert r in s.store.records && r.held[0] in r.held;
      RemoveIn(r.held, r.held[0]);
    case Wake(name) => RemoveIn(s.seen, name);
    case _ =>
  }

  ghost predicate AllCovered(s: System) {
    Known(s) && forall x :: x in s.store.names ==> Covered(s, x)
  }

  /** Over all interleavings of a careful run no resource is given out more often than it was configured. */
  lemma {:induction false} ResourcesSafe(s: System, run: seq<Step>, x: string, configured: int)
    requires Possible(s, run) && Careful(s, run) && AllCovered(s) && Conserved(s.store, x, configured)
    ensures var r := After(s, run);
            && AllCovered(r) && Conserved(r.store, x, configured) && Granted(r, x) <= configured
            && (!s.crashed ==> !r.crashed)
    decreases |run|
  {
    hide Next, Enabled, Covered, Conserved, Unclaimed, Granted, Known;
    if |run| == 0 {
      assert Covered(s, x) by { ConservedName(s.store, x, configured); }
      NeverOverGranted(s, x, configured);
    } else {
      var r := Next(s, run[0]);
      NoCrash(s, run[0]);
      SameNames(s, run[0]);
      KnownKeeps(s, run[0]);
      forall y | y in r.store.names
        ensures Covered(r, y)
      {
        CoveredIff(s, run[0], y);
      }
      ConservedName(s.store, x, configured);
      ConservedIff(s, run[0], x, configured);
      ResourcesSafe(r, run[1..], x, configured);
    }
  }

  lemma ConservedName(s: Store, x: string, configured: int)
    requires Conserved(s, x, configured)
    ensures x in s.names
  {
  }

  lemma SameNames(s: System, a: Step)
    requires Enabled(s, a)
    ensures Next(s, a).store.names == s.store.names
  {
  }

  /** A waking of a configured resource that is covered does not crash. */
  lemma NoCrash(s: System, a: Step)
    requires Enabled(s, a) && AllCovered(s)
    ensures !Next(s, a).crashed
  {
    hide Next;
    OnlyWakeCrashes(s, a);
    if a.Wake? {
      CoveredIff(s, a, a.name);
    }
  }

  /** The resources when the kernel starts. */
  function Fresh(names: seq<string>, instances: seq<int>): (s: System) {
    System(Store(names, instances, [], []), Free, [], false)
  }

  /** From the start, with no negative number of instances, every resource is conserved, covered and balanced. */
  lemma FreshStart(names: seq<string>, instances: seq<int>)
    requires |names| == |instances| && forall i :: 0 <= i < |instances| ==> instances[i] >= 0
    ensures var s := Fresh(names, instances);
            AllCovered(s)
            && forall x :: x in names ==> Conserved(s.store, x, Instances(s.store, x)) && Balanced(s, x)
  {
  }

  /** Over all careful runs from the start, no resource is given out more often than it was configured. */
  lemma SafeFromStart(names: seq<string>, instances: seq<int>, run: seq<Step>, x: string)
    requires |names| == |instances| && x in names && forall i :: 0 <= i < |instances| ==> instances[i] >= 0
    requires Possible(Fresh(names, instances), run) && Careful(Fresh(names, instances), run)
    ensures var s := After(Fresh(names, instances), run);
            !s.crashed && Granted(s, x) <= Instances(Fresh(names, instances).store, x)
  {
    hide Possible, Careful, AllCovered, Conserved, Granted;
    var s := Fresh(names, instances);
    FreshStart(names, instances);
    ResourcesSafe(s, run, x, Instances(s.store, x));
  }

  // ----- searches followed at once by their waking -----

  /** WAITs of processes with a record, SIGNALs by holders, and no kill of a waiter. */
  ghost predicate Decent(s: System, a: Step) {
    !a.KillWaiter? && forall x :: x in s.store.names ==> Concerns(a, x) ==> OnRecord(s.store, a)
  }

  /** No other thread comes between a search that finds a waiter and its waking. */
  ghost predicate Prompt(s: System, run: seq<Step>)
    requires Possible(s, run)
    decreases |run|
  {
    |run| == 0 || (
      && (if s.seen == [] then Decent(s, run[0]) else run[0] == Wake(s.seen[0]))
      && Prompt(Next(s, run[0]), run[1..]))
  }

  lemma PromptStep(s: System, a: Step)
    requires Enabled(s, a) && |s.seen| <= 1
    requires if s.seen == [] then Decent(s, a) else a == Wake(s.seen[0])
    ensures forall x :: x in s.store.names ==> Unclaimed(s, a, x)
    ensures forall x :: x in s.store.names ==> Concerns(a, x) ==> OnRecord(s.store, a)
    ensures !Next(s, a).crashed ==> |Next(s, a).seen| <= 1
  {
    OccursRemove(s.seen, if s.seen == [] then "" else s.seen[0], "");
  }

  /** Such runs are careful: with one thread at a time between search and waking no search finds a claimed waiter. */
  lemma {:induction false} PromptCareful(s: System, run: seq<Step>)
    requires Possible(s, run) && Prompt(s, run) && |s.seen| <= 1
    ensures Careful(s, run)
    decreases |run|
  {
    hide Next, Enabled, Unclaimed, Decent;
    if |run| > 0 {
      PromptStep(s, run[0]);
      if |run| > 1 {
        NotAfterCrash(Next(s, run[0]), run[1..]);
        PromptCareful(Next(s, run[0]), run[1..]);
      }
    }
  }

  lemma NotAfterCrash(s: System, run: seq<Step>)
    requires Possible(s, run) && |run| > 0
    ensures !s.crashed
  {
  }

  /** From the start, whenever searches are followed at once by their wakings, nothing crashes or is given out twice. */
  lemma PromptFromStart(names: seq<string>, instances: seq<int>, run: seq<Step>, x: string)
    requires |names| == |instances| && x in names && forall i :: 0 <= i < |instances| ==> instances[i] >= 0
    requires Possible(Fresh(names, instances), run) && Prompt(Fresh(names, instances), run)
    ensures var s := After(Fresh(names, instances), run);
            !s.crashed && Granted(s, x) <= Instances(Fresh(names, instances).store, x)
  {
    hide Possible, Careful, Prompt, Granted;
    PromptCareful(Fresh(names, instances), run);
    SafeFromStart(names, instances, run, x);
  }

  // ----- single steps that go wrong -----

  /** A waking crashes exactly when the waiter it saw has been woken by another thread. */
  lemma WakeCrashesIff(s: System, name: string)
    requires Enabled(s, Wake(name))
    ensures Next(s, Wake(name)).crashed <==> WaitersIn(s.store.blocked, name) == 0
  {
    FirstWaiterIff(s.store.blocked, name);
  }

  /** A SIGNAL and a release, each of a holder, before either wakes: both see the only waiter. */
  lemma TwoSearches(s: System, x: string, p: int, t: nat)
    requires Enabled(s, Signal(p, x)) && x in s.store.names && Instances(s.store, x) == -1
    requires WaitersIn(s.store.blocked, x) == 1 && Occurs(s.seen, x) == 0
    requires Enabled(Next(s, Signal(p, x)), Release(t)) && Next(s, Signal(p, x)).store.records[t].held[0] == x
    ensures var r := Next(Next(s, Signal(p, x)), Release(t));
            Instances(r.store, x) == 1 && WaitersIn(r.store.blocked, x) == 1 && Occurs(r.seen, x) == 2
  {
    hide Occurs, WaitersIn, Next;
    OnlyWakeCrashes(s, Signal(p, x));
    StepNumbers(s, Signal(p, x), x);
    OnlyWakeCrashes(Next(s, Signal(p, x)), Release(t));
    StepNumbers(Next(s, Signal(p, x)), Release(t), x);
  }

  /**
   Two threads have seen the same waiter. One wakes it; a process asks twice and has to wait the second time;
   the other thread wakes that one. Now one unit more is in use than was configured.
   */
  lemma DoubleWake(s: System, x: string, configured: int, p: int)
    requires !s.crashed && s.cpu == Free && Conserved(s.store, x, configured) && RecordOf(s.store.records, p) != -1
    requires Instances(s.store, x) == 1 && WaitersIn(s.store.blocked, x) == 1 && Occurs(s.seen, x) == 2
    ensures var run := [Wake(x), Wait(p, x), Wait(p, x), Arrive, Wake(x)];
            Possible(s, run) && !After(s, run).crashed && Granted(After(s, run), x) == configured + 1
  {
    hide Occurs, WaitersIn, Recorded, Next, RecordOf, Remove;
    var run := [Wake(x), Wait(p, x), Wait(p, x), Arrive, Wake(x)];
    OccursIn(s.seen, x);
    WakeCrashesIff(s, x);
    StepNumbers(s, run[0], x);
    ConservedIff(s, run[0], x, configured);
    var s1 := Next(s, run[0]);
    AfterWake(s, x);
    OnlyWakeCrashes(s1, run[1]);
    StepNumbers(s1, run[1], x);
    ConservedIff(s1, run[1], x, configured);
    var s2 := Next(s1, run[1]);
    AfterWait(s1, p, x);
    OnlyWakeCrashes(s2, run[2]);
    StepNumbers(s2, run[2], x);
    ConservedIff(s2, run[2], x, configured);
    var s3 := Next(s2, run[2]);
    AfterWait(s2, p, x);
    OnlyWakeCrashes(s3, Arrive);
    StepNumbers(s3, Arrive, x);
    ConservedIff(s3, Arrive, x, configured);
    var s4 := Next(s3, Arrive);
    OccursIn(s4.seen, x);
    WakeCrashesIff(s4, x);
    StepNumbers(s4, run[4], x);
    ConservedIff(s4, run[4], x, configured);
    FiveSteps(s, run[0], run[1], run[2], run[3], run[4]);
  }

  lemma AfterWake(s: System, x: string)
    requires Enabled(s, Wake(x)) && !Next(s, Wake(x)).crashed
    ensures var r := Next(s, Wake(x));
            r.cpu == s.cpu && r.store.records == s.store.records
  {
  }

  lemma AfterWait(s: System, p: int, x: string)
    requires Enabled(s, Wait(p, x)) && x in s.store.names && RecordOf(s.store.records, p) != -1
    ensures var r := Next(s, Wait(p, x));
            && r.cpu == (if Instances(s.store, x) <= 0 then Blocking(p, x) else Free)
            && !r.crashed && RecordOf(r.store.records, p) != -1 && r.seen == s.seen
  {
    var t := RecordOf(s.store.records, p);
    assert Next(s, Wait(p, x)).store.records[t].pid == p;
  }

  lemma FiveSteps(s: System, a: Step, b: Step, c: Step, d: Step, e: Step)
    requires Enabled(s, a) && Enabled(Next(s, a), b) && Enabled(Next(Next(s, a), b), c)
    requires Enabled(Next(Next(Next(s, a), b), c), d) && Enabled(Next(Next(Next(Next(s, a), b), c), d), e)
    ensures Possible(s, [a, b, c, d, e])
         && After(s, [a, b, c, d, e]) == Next(Next(Next(Next(Next(s, a), b), c), d), e)
  {
    hide Next, Enabled;
    var s4 := Next(Next(Next(Next(s, a), b), c), d);
    var s3 := Next(Next(Next(s, a), b), c);
    var s2 := Next(Next(s, a), b);
    FirstStep(s4, e, []);
    FirstStep(s3, d, [e]);
    FirstStep(s2, c, [d, e]);
    FirstStep(Next(s, a), b, [c, d, e]);
    FirstStep(s, a, [b, c, d, e]);
    assert [e] + [] == [e] && [d] + [e] == [d, e] && [c] + [d, e] == [c, d, e];
    assert [b] + [c, d, e] == [b, c, d, e] && [a] + [b, c, d, e] == [a, b, c, d, e];
  }

  lemma FirstStep(s: System, a: Step, rest: seq<Step>)
    requires Enabled(s, a) && Possible(Next(s, a), rest)
    ensures Possible(s, [a] + rest) && After(s, [a] + rest) == After(Next(s, a), rest)
  {
    hide Next, Enabled;
    assert ([a] + rest)[1..] == rest;
  }
}
