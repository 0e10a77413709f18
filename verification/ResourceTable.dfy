/**
 The resource operations of the kernel as its threads run them one at a time: the counters in a fixed array,
 the records and the blocked list updated in place.
 */
module ResourceTable {
  import opened CTypes
  import opened Lists
  import opened BlockedList
  import opened ResourceModel
  import opened ResourceSafety

  // ----- releasing everything a process has on record -----

  /** The search and the waking after one release. */
  function WakeIfAny(s: Store, name: string): (r: Store)
    ensures r.names == s.names && r.inst == s.inst && r.records == s.records
  {
    if FirstWaiter(s.blocked, name) == -1 then s else WakeFirst(s, name)
  }

  /** One round for the record at place `t`. */
  function Round(s: Store, t: nat): (r: Store)
    requires Shaped(s) && t < |s.records| && s.records[t].held != []
    ensures Shaped(r) && r.names == s.names && |r.records| == |s.records|
    ensures r.records[t].pid == s.records[t].pid && r.records[t].held == s.records[t].held[1..]
  {
    WakeIfAny(ReleaseFirst(s, t), s.records[t].held[0])
  }

  function Released(s: Store, t: nat): (r: Store)
    requires Shaped(s) && t < |s.records|
    ensures Shaped(r) && r.names == s.names && |r.records| == |s.records| && r.records[t].held == []
    decreases |s.records[t].held|
  {
    if s.records[t].held == [] then s else Released(Round(s, t), t)
  }

  function Less(w: nat, n: nat): (r: nat) {
    if w <= n then 0 else w - n
  }

  lemma RoundNumbers(s: Store, t: nat, x: string)
    requires Shaped(s) && t < |s.records| && s.records[t].held != [] && x in s.names
    ensures var r, n := Round(s, t), One(s.records[t].held[0] == x);
            && Instances(r, x) == Instances(s, x) + n
            && WaitersIn(r.blocked, x) == Less(WaitersIn(s.blocked, x), n)
            && Recorded(r.records, x) == Recorded(s.records, x) - n
            && Occurs(r.records[t].held, x) == Occurs(s.records[t].held, x) - n
  {
    hide Recorded, WaitersIn, FirstWaiter;
    var name := s.records[t].held[0];
    FirstWaiterIff(s.blocked, name);
    RecordedUpdate(s.records, t, Record(s.records[t].pid, s.records[t].held[1..]), x);
    if FirstWaiter(s.blocked, name) != -1 {
      BlockedCut(s.blocked, FirstWaiter(s.blocked, name), x, 0);
      BlockedCut(s.blocked, FirstWaiter(s.blocked, name), name, 0);
    }
  }

  /** Releasing a process: each unit on record comes back and wakes one waiter while there are any. */
  lemma {:induction false} ReleasedNumbers(s: Store, t: nat, x: string)
    requires Shaped(s) && t < |s.records| && x in s.names
    ensures var r, n := Released(s, t), Occurs(s.records[t].held, x);
            && Instances(r, x) == Instances(s, x) + n
            && WaitersIn(r.blocked, x) == Less(WaitersIn(s.blocked, x), n)
            && Recorded(r.records, x) == Recorded(s.records, x) - n
    decreases |s.records[t].held|
  {
    hide Recorded, WaitersIn, Instances, Round;
    if s.records[t].held != [] {
      RoundNumbers(s, t, x);
      ReleasedNumbers(Round(s, t), t, x);
    }
  }

  lemma RoundOrder(s: Store, t: nat, x: string)
    requires Shaped(s) && t < |s.records| && s.records[t].held != []
    ensures var line, n := WaitLine(s.blocked, x), One(s.records[t].held[0] == x);
            WaitLine(Round(s, t).blocked, x) == line[Min(n, |line|)..]
  {
    hide WaitLine, FirstWaiter, Cut;
    WakeOrder(s.blocked, s.records[t].held[0], x);
  }

  /** One waking, if anybody waits: its own line loses the head, the others nothing. */
  lemma WakeOrder(blocked: seq<Waiter>, name: string, x: string)
    ensures var i, line := FirstWaiter(blocked, name), WaitLine(blocked, x);
            && (i == -1 && name == x ==> line == [])
            && (i != -1 ==> WaitLine(Cut(blocked, i), x) == if name == x then line[Min(1, |line|)..] else line)
  {
    hide WaitLine, FirstWaiter, Cut, WaitersIn;
    LineLength(blocked, x);
    FirstWaiterIff(blocked, name);
    if FirstWaiter(blocked, name) != -1 {
      if name == x {
        FirstIsHead(blocked, x);
      } else {
        LineCutOther(blocked, FirstWaiter(blocked, name), x);
      }
    }
  }

  /** Releasing a process: of each line exactly the first processes go, one for each unit on record. */
  lemma {:induction false} ReleasedOrder(s: Store, t: nat, x: string)
    requires Shaped(s) && t < |s.records|
    ensures var line, n := WaitLine(s.blocked, x), Occurs(s.records[t].held, x);
            WaitLine(Released(s, t).blocked, x) == line[Min(n, |line|)..]
    decreases |s.records[t].held|
  {
    hide WaitLine, Round;
    if s.records[t].held != [] {
      RoundOrder(s, t, x);
      ReleasedOrder(Round(s, t), t, x);
    }
  }

  /** A process is finished from the console while blocked: out of the list, then everything is released. */
  function Finished(s: Store, i: nat): (r: Store)
    requires Shaped(s) && i < |s.blocked|
    ensures Shaped(r) && r.names == s.names
  {
    var cut := s.(blocked := Cut(s.blocked, i));
    var t := RecordOf(s.records, s.blocked[i].pid);
    if t == -1 then cut else Released(cut, t)
  }

  /** What a store with no thread at work has granted. */
  function GrantedNow(s: Store, x: string): int {
    Recorded(s.records, x) - WaitersIn(s.blocked, x)
  }

  /**
   A waiter is finished from the console. Its own request is on record and is released like a unit it held, so
   another waiter is let in for it. No more is granted than configured exactly when the process had at least
   as many units on record as processes were waiting.
   */
  lemma FinishWaiterIff(s: Store, i: nat, x: string, configured: int)
    requires Conserved(s, x, configured) && i < |s.blocked| && s.blocked[i].info == x
    requires WaitersIn(s.blocked, x) == Lacking(Instances(s, x)) && RecordOf(s.records, s.blocked[i].pid) != -1
    ensures GrantedNow(Finished(s, i), x) <= configured
        <==> WaitersIn(s.blocked, x) <= Occurs(s.records[RecordOf(s.records, s.blocked[i].pid)].held, x)
  {
    hide Recorded, WaitersIn, Released;
    var cut := s.(blocked := Cut(s.blocked, i));
    BlockedCut(s.blocked, i, x, 0);
    ReleasedNumbers(cut, RecordOf(s.records, s.blocked[i].pid), x);
  }

  /** A process that waits for nothing is released: the waiters stay in balance. */
  lemma ReleasedBalanced(s: Store, t: nat, x: string)
    requires Shaped(s) && t < |s.records| && x in s.names && WaitersIn(s.blocked, x) == Lacking(Instances(s, x))
    ensures WaitersIn(Released(s, t).blocked, x) == Lacking(Instances(Released(s, t), x))
  {
    hide Recorded, WaitersIn, Released, Instances;
    ReleasedNumbers(s, t, x);
  }

  lemma LinesAfter(blocked: seq<Waiter>, name: string)
    ensures forall x :: var i, line := FirstWaiter(blocked, name), WaitLine(blocked, x);
              && (i == -1 && name == x ==> line == [])
              && (i != -1 ==> WaitLine(Cut(blocked, i), x) == if name == x then line[Min(1, |line|)..] else line)
  {
    forall x
      ensures var i, line := FirstWaiter(blocked, name), WaitLine(blocked, x);
              && (i == -1 && name == x ==> line == [])
              && (i != -1 ==> WaitLine(Cut(blocked, i), x) == if name == x then line[Min(1, |line|)..] else line)
    {
      WakeOrder(blocked, name, x);
    }
  }

  /** Of every line the first processes have gone, one for each unit of its resource. */
  ghost predicate Advanced(before: seq<Waiter>, after: seq<Waiter>, units: seq<string>) {
    forall x :: var line := WaitLine(before, x); WaitLine(after, x) == line[Min(Occurs(units, x), |line|)..]
  }

  lemma LinesReleased(s: Store, t: nat)
    requires Shaped(s) && t < |s.records|
    ensures Advanced(s.blocked, Released(s, t).blocked, s.records[t].held)
  {
    hide WaitLine, Occurs, Released;
    forall x
      ensures var line, n := WaitLine(s.blocked, x), Occurs(s.records[t].held, x);
              WaitLine(Released(s, t).blocked, x) == line[Min(n, |line|)..]
    {
      ReleasedOrder(s, t, x);
    }
  }

  // ----- the table in place -----

  class Table {
    const names: seq<string>
    const inst: array<int>
    var records: seq<Record>
    var blocked: seq<Waiter>

    constructor (names: seq<string>, instances: seq<int>)
      requires |names| == |instances|
      ensures Valid() && fresh(inst) && Now() == Store(names, instances, [], [])
    {
      this.names := names;
      inst := new int[|instances|](i requires 0 <= i < |instances| => instances[i]);
      records, blocked := [], [];
    }

    predicate Valid()
      reads this
    {
      inst.Length == |names|
    }

    function Now(): (s: Store)
      reads this, inst
      requires Valid()
      ensures Shaped(s)
    {
      Store(names, inst[..], records, blocked)
    }

    method FindIndexOfString(x: string) returns (i: int)
      requires Valid()
      ensures i == Index(names, x)
    {
      i := 0;
      while i < |names|
        invariant 0 <= i <= |names|
        invariant forall j :: 0 <= j < i ==> names[j] != x
      {
        if names[i] == x {
          return i;
        }
        i := i + 1;
      }
      i := -1;
    }

    method RemoverRecurso(t: nat, name: string)
      requires Valid() && t < |records|
      modifies this`records
      ensures records == old(records)[t := Record(old(records)[t].pid, Remove(old(records)[t].held, name))]
    {
      var held, i := records[t].held, 0;
      while i < |held| && held[i] != name
        invariant 0 <= i <= |held|
        invariant forall k :: 0 <= k < i ==> held[k] != name
      {
        i := i + 1;
      }
      RemoveAt(held, name, i);
      if i < |held| {
        held := held[..i] + held[i + 1..];
      }
      records := records[t := Record(records[t].pid, held)];
    }

    method Wait(pid: int, name: string) returns (reply: Reply)
      requires Valid()
      modifies this`records, inst
      ensures Valid() && (Now(), reply) == WaitFor(old(Now()), pid, name)
      ensures reply == EmptyInstance <==> name !in names
      ensures reply == Block <==> name in names && old(Instances(Now(), name)) <= 0
      ensures reply == EmptyInstance ==> Now() == old(Now())
      ensures reply != NoReply
    {
      var index := FindIndexOfString(name);
      if index == -1 {
        return EmptyInstance;
      }
      inst[index] := inst[index] - 1;
      var t := RecordOf(records, pid);
      if t != -1 {
        records := records[t := Record(records[t].pid, records[t].held + [name])];
      }
      reply := if inst[index] < 0 then Block else Continue;
    }

    /** The first process blocked for a resource leaves the list. */
    method WakeOne(name: string)
      requires Valid()
      modifies this`blocked
      ensures Now() == WakeIfAny(old(Now()), name)
    {
      var i := FirstWaiter(blocked, name);
      if i != -1 {
        blocked := Cut(blocked, i);
      }
    }

    method Signal(pid: int, name: string) returns (reply: Reply)
      requires Valid()
      modifies this`records, this`blocked, inst
      ensures Valid()
      ensures var w := SignalFor(old(Now()), pid, name);
              reply == w.1 && Now() == if reply == Continue then WakeIfAny(w.0, name) else w.0
      ensures reply == EmptyInstance <==> name !in names
      ensures reply == NoReply <==> name in names && old(Instances(Now(), name)) < -1
      ensures reply == EmptyInstance ==> Now() == old(Now())
      ensures reply != Block
      ensures forall x :: var line := WaitLine(old(blocked), x);
                WaitLine(blocked, x) == if reply == Continue && x == name then line[Min(1, |line|)..] else line
    {
      hide WaitLine;
      LinesAfter(blocked, name);
      var index := FindIndexOfString(name);
      if index == -1 {
        return EmptyInstance;
      }
      inst[index] := inst[index] + 1;
      var t := RecordOf(records, pid);
      if t != -1 {
        RemoverRecurso(t, name);
      }
      if inst[index] >= 0 {
        WakeOne(name);
        return Continue;
      }
      return NoReply;
    }

    /** Everything on record comes back, one round for each entry, and the list ends empty. */
    method LiberarRecursos(pid: int)
      requires Valid()
      modifies this`records, this`blocked, inst
      ensures Valid()
      ensures var t := RecordOf(old(records), pid);
              Now() == if t == -1 then old(Now()) else Released(old(Now()), t)
      ensures var t := RecordOf(old(records), pid);
              if t == -1 then blocked == old(blocked) else Advanced(old(blocked), blocked, old(records)[t].held)
    {
      hide Advanced;
      var t := RecordOf(records, pid);
      if t == -1 {
        return;
      }
      LinesReleased(Now(), t);
      while records[t].held != []
        invariant Valid() && t < |records|
        invariant Released(Now(), t) == Released(old(Now()), t)
        decreases |records[t].held|
      {
        var name := records[t].held[0];
        ghost var before := Now();
        RemoverRecurso(t, name);
        var index := FindIndexOfString(name);
        if index != -1 {
          inst[index] := inst[index] + 1;
        }
        assert Now() == ReleaseFirst(before, t);
        WakeOne(name);
        assert Now() == Round(before, t);
      }
    }
  }
}
