/**
 A run from the start in which a SIGNAL and a release see the same waiter: nobody is killed, the SIGNAL is by a
 holder and the release follows a failed IO.
 */
module DoubleWaking {
  import opened Lists
  import opened BlockedList
  import opened ResourceModel
  import opened ResourceSafety

  const R := "r"
  const Nothing: seq<string> := []
  const Unit: seq<string> := [R]

  function State(inst: int, a: seq<string>, b: seq<string>, c: seq<string>, blocked: seq<Waiter>, cpu: Cpu): (s: System) {
    System(Store([R], [inst], [Record(1, a), Record(2, b), Record(3, c)], blocked), cpu, [], false)
  }

  lemma Records(a: seq<string>, b: seq<string>, c: seq<string>)
    ensures var records := [Record(1, a), Record(2, b), Record(3, c)];
            RecordOf(records, 1) == 0 && RecordOf(records, 2) == 1 && RecordOf(records, 3) == 2
  {
    var records := [Record(1, a), Record(2, b), Record(3, c)];
    var two, one := [Record(2, b), Record(3, c)], [Record(3, c)];
    assert records[1..] == two && two[1..] == one;
    assert RecordOf(one, 3) == 0 && RecordOf(two, 2) == 0;
    assert RecordOf(two, 3) == 1;
  }

  lemma Made()
    ensures var run := [NewRecord(1), NewRecord(2), NewRecord(3)];
            Possible(Fresh([R], [2]), run) && After(Fresh([R], [2]), run) == State(2, Nothing, Nothing, Nothing, [], Free)
  {
    var s := Fresh([R], [2]);
    var one, two := Next(s, NewRecord(1)), Next(Next(s, NewRecord(1)), NewRecord(2));
    var three := Next(two, NewRecord(3));
    assert three.store.records == [Record(1, []), Record(2, []), Record(3, [])];
    FirstStep(two, NewRecord(3), []);
    FirstStep(one, NewRecord(2), [NewRecord(3)]);
    FirstStep(s, NewRecord(1), [NewRecord(2), NewRecord(3)]);
    assert [NewRecord(3)] + [] == [NewRecord(3)];
    assert [NewRecord(2)] + [NewRecord(3)] == [NewRecord(2), NewRecord(3)];
    assert [NewRecord(1)] + [NewRecord(2), NewRecord(3)] == [NewRecord(1), NewRecord(2), NewRecord(3)];
  }

  /** A WAIT of one of the processes; the others keep their records. */
  lemma Asked(inst: int, a: seq<string>, b: seq<string>, c: seq<string>, blocked: seq<Waiter>, pid: int)
    requires 1 <= pid <= 3
    ensures var s := State(inst, a, b, c, blocked, Free);
            Enabled(s, Wait(pid, R))
            && Next(s, Wait(pid, R))
               == State(inst - 1, if pid == 1 then a + [R] else a, if pid == 2 then b + [R] else b,
                        if pid == 3 then c + [R] else c, blocked, if inst <= 0 then Blocking(pid, R) else Free)
  {
    Records(a, b, c);
    var s := State(inst, a, b, c, blocked, Free);
    assert [inst][0 := inst - 1] == [inst - 1];
    var t := RecordOf(s.store.records, pid);
    assert Recording(s.store, pid, R)
        == [Record(1, if pid == 1 then a + [R] else a), Record(2, if pid == 2 then b + [R] else b),
            Record(3, if pid == 3 then c + [R] else c)];
  }

  lemma Came(inst: int, a: seq<string>, b: seq<string>, c: seq<string>, blocked: seq<Waiter>)
    ensures var s, io := State(inst, a, b, c, blocked, Free), Waiter(1, "IO");
            && Enabled(s, BlockIo(1, "IO")) && Next(s, BlockIo(1, "IO")) == State(inst, a, b, c, blocked + [io], Free)
            && var w := State(inst, a, b, c, blocked, Blocking(3, R));
               Enabled(w, Arrive) && Next(w, Arrive) == State(inst, a, b, c, blocked + [Waiter(3, R)], Free)
  {
  }

  lemma Ended()
    ensures var s := State(-1, Unit, Unit, Unit, [Waiter(1, "IO"), Waiter(3, R)], Free);
            Enabled(s, EndIo(0)) && Next(s, EndIo(0)) == State(-1, Unit, Unit, Unit, [Waiter(3, R)], Free)
  {
    assert Cut([Waiter(1, "IO"), Waiter(3, R)], 0) == [Waiter(3, R)];
  }

  /** Process 1 takes a unit and goes to an interface, 2 takes the other, 3 has to wait; the interface fails. */
  const ToTwo: seq<Step> := [NewRecord(1), NewRecord(2), NewRecord(3)]
    + [Wait(1, R)] + [BlockIo(1, "IO")] + [Wait(2, R)] + [Wait(3, R)] + [Arrive] + [EndIo(0)]

  lemma {:induction false} OneMore(s: System, run: seq<Step>, a: Step)
    requires Possible(s, run) && Enabled(After(s, run), a)
    ensures Possible(s, run + [a]) && After(s, run + [a]) == Next(After(s, run), a)
    decreases |run|
  {
    hide Next, Enabled;
    if |run| > 0 {
      OneMore(Next(s, run[0]), run[1..], a);
      assert (run + [a])[1..] == run[1..] + [a];
    } else {
      assert (run + [a])[1..] == [];
    }
  }

  lemma TwoReached()
    ensures Possible(Fresh([R], [2]), ToTwo)
    ensures After(Fresh([R], [2]), ToTwo) == State(-1, Unit, Unit, Unit, [Waiter(3, R)], Free)
  {
    hide Next, Enabled, Possible, After;
    var s := Fresh([R], [2]);
    assert Nothing + [R] == Unit;
    var io, w := Waiter(1, "IO"), Waiter(3, R);
    assert [] + [io] == [io] && [io] + [w] == [io, w];
    var run := [NewRecord(1), NewRecord(2), NewRecord(3)];
    Made();
    Asked(2, Nothing, Nothing, Nothing, [], 1);
    OneMore(s, run, Wait(1, R));
    Came(1, Unit, Nothing, Nothing, []);
    OneMore(s, run + [Wait(1, R)], BlockIo(1, "IO"));
    Asked(1, Unit, Nothing, Nothing, [io], 2);
    OneMore(s, run + [Wait(1, R)] + [BlockIo(1, "IO")], Wait(2, R));
    Asked(0, Unit, Unit, Nothing, [io], 3);
    OneMore(s, run + [Wait(1, R)] + [BlockIo(1, "IO")] + [Wait(2, R)], Wait(3, R));
    Came(-1, Unit, Unit, Unit, [io]);
    OneMore(s, run + [Wait(1, R)] + [BlockIo(1, "IO")] + [Wait(2, R)] + [Wait(3, R)], Arrive);
    Ended();
    OneMore(s, run + [Wait(1, R)] + [BlockIo(1, "IO")] + [Wait(2, R)] + [Wait(3, R)] + [Arrive], EndIo(0));
  }

  /** The state of the two searches: both units are back, and two threads are about to wake process 3. */
  function Searched(): (s: System) {
    State(1, Nothing, Nothing, Unit, [Waiter(3, R)], Free).(seen := [R, R])
  }

  lemma SearchedReached()
    ensures var s := State(-1, Unit, Unit, Unit, [Waiter(3, R)], Free);
            && Enabled(s, Signal(2, R))
            && var one := Next(s, Signal(2, R));
               one == State(0, Unit, Nothing, Unit, [Waiter(3, R)], Free).(seen := [R])
               && Enabled(one, Release(0)) && Next(one, Release(0)) == Searched()
  {
    var s := State(-1, Unit, Unit, Unit, [Waiter(3, R)], Free);
    Records(Unit, Unit, Unit);
    assert Remove(Unit, R) == Nothing;
    assert [-1][0 := 0] == [0] && [0][0 := 1] == [1];
    assert Unrecording(s.store, 2, R) == [Record(1, Unit), Record(2, Nothing), Record(3, Unit)];
    var one := State(0, Unit, Nothing, Unit, [Waiter(3, R)], Free).(seen := [R]);
    assert one.store.records[0 := Record(1, Nothing)] == [Record(1, Nothing), Record(2, Nothing), Record(3, Unit)];
    assert [] + [R] == [R] && [R] + [R] == [R, R];
  }

  lemma SearchedNumbers()
    ensures var s := Searched();
            && Conserved(s.store, R, 2) && Instances(s.store, R) == 1
            && WaitersIn(s.store.blocked, R) == 1 && Occurs(s.seen, R) == 2
  {
    var records := [Record(1, Nothing), Record(2, Nothing), Record(3, Unit)];
    assert records[1..] == [Record(2, Nothing), Record(3, Unit)] && records[1..][1..] == [Record(3, Unit)];
    assert [Record(3, Unit)][1..] == [] && Unit[1..] == [];
    assert Occurs(Unit, R) == 1 && Recorded([], R) == 0;
    assert Recorded([Record(3, Unit)], R) == 1;
    assert Recorded([Record(2, Nothing), Record(3, Unit)], R) == 1;
    assert [R, R][1..] == [R];
    assert Occurs([R], R) == 1;
  }

  const TwoSeen: seq<Step> := ToTwo + [Signal(2, R)] + [Release(0)]

  /** From the start without a kill: the second of two wakings finds nobody, which is a crash. */
  lemma CrashFromStart()
    ensures var run := TwoSeen + [Wake(R)] + [Wake(R)];
            Possible(Fresh([R], [2]), run) && After(Fresh([R], [2]), run).crashed
  {
    hide Next, Enabled, Possible, After, Recorded, Waiting;
    var s := Fresh([R], [2]);
    ToSearched();
    SearchedNumbers();
    WakesTwice(Searched());
    OneMore(s, TwoSeen, Wake(R));
    OneMore(s, TwoSeen + [Wake(R)], Wake(R));
  }

  lemma ToSearched()
    ensures Possible(Fresh([R], [2]), TwoSeen) && After(Fresh([R], [2]), TwoSeen) == Searched()
  {
    hide Next, Enabled, Possible, After;
    TwoReached();
    SearchedReached();
    OneMore(Fresh([R], [2]), ToTwo, Signal(2, R));
    OneMore(Fresh([R], [2]), ToTwo + [Signal(2, R)], Release(0));
  }

  lemma WakesTwice(s: System)
    requires Shaped(s.store) && !s.crashed && R in s.store.names
    requires WaitersIn(s.store.blocked, R) == 1 && Occurs(s.seen, R) == 2
    ensures Enabled(s, Wake(R)) && Enabled(Next(s, Wake(R)), Wake(R))
    ensures Next(Next(s, Wake(R)), Wake(R)).crashed
  {
    hide Next, Occurs, WaitersIn, Waiting;
    OccursIn(s.seen, R);
    WakeCrashesIff(s, R);
    StepNumbers(s, Wake(R), R);
    OccursIn(Next(s, Wake(R)).seen, R);
    WakeCrashesIff(Next(s, Wake(R)), R);
  }

  /**
   Or, when the process that signalled goes on and asks twice between the two wakings, a unit more is in use than was
   configured.
   */
  lemma OverGrantFromStart()
    ensures var more := [Wake(R), Wait(2, R), Wait(2, R), Arrive, Wake(R)];
            Possible(Fresh([R], [2]), TwoSeen) && After(Fresh([R], [2]), TwoSeen) == Searched()
            && Possible(Searched(), more) && !After(Searched(), more).crashed && Granted(After(Searched(), more), R) == 3
  {
    hide Next, Enabled, Possible, After, Recorded, Occurs, WaitersIn;
    ToSearched();
    SearchedNumbers();
    Records(Nothing, Nothing, Unit);
    DoubleWake(Searched(), R, 2, 2);
  }
}
