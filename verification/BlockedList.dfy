/**
 The kernel's blocked list: processes with the context they left the CPU with. Interfaces look a process up by
 its pid, resources by the context, which is then the name of the resource.
 */
module BlockedList {

  datatype Waiter = Waiter(pid: int, info: string)

  /** The first process with a context, or -1. */
  function FirstWaiter(blocked: seq<Waiter>, x: string): (i: int)
    ensures i == -1 ==> forall k :: 0 <= k < |blocked| ==> blocked[k].info != x
    ensures i != -1 ==> 0 <= i < |blocked| && blocked[i].info == x && forall k :: 0 <= k < i ==> blocked[k].info != x
  {
    if |blocked| == 0 then -1
    else if blocked[0].info == x then 0
    else
      var i := FirstWaiter(blocked[1..], x);
      assert forall k :: 1 <= k < |blocked| ==> blocked[k] == blocked[1..][k - 1];
      if i == -1 then -1 else i + 1
  }

  /** The first process with a pid, or -1. */
  function FirstOf(blocked: seq<Waiter>, pid: int): (i: int)
    ensures i == -1 ==> forall k :: 0 <= k < |blocked| ==> blocked[k].pid != pid
    ensures i != -1 ==> 0 <= i < |blocked| && blocked[i].pid == pid && forall k :: 0 <= k < i ==> blocked[k].pid != pid
  {
    if |blocked| == 0 then -1
    else if blocked[0].pid == pid then 0
    else
      var i := FirstOf(blocked[1..], pid);
      assert forall k :: 1 <= k < |blocked| ==> blocked[k] == blocked[1..][k - 1];
      if i == -1 then -1 else i + 1
  }

  /** The list without the process at a place. */
  function Cut(blocked: seq<Waiter>, i: nat): (r: seq<Waiter>)
    requires i < |blocked|
    ensures |r| == |blocked| - 1
    ensures forall w :: w in r ==> w in blocked
  {
    blocked[..i] + blocked[i + 1..]
  }

  function WaitersIn(blocked: seq<Waiter>, x: string): (n: nat) {
    if |blocked| == 0 then 0 else (if blocked[0].info == x then 1 else 0) + WaitersIn(blocked[1..], x)
  }

  /** How often a pid is in the list. */
  function Standing(blocked: seq<Waiter>, p: int): (n: nat) {
    if |blocked| == 0 then 0 else (if blocked[0].pid == p then 1 else 0) + Standing(blocked[1..], p)
  }

  lemma {:induction false} BlockedAppend(blocked: seq<Waiter>, w: Waiter, x: string, p: int)
    ensures WaitersIn(blocked + [w], x) == WaitersIn(blocked, x) + if w.info == x then 1 else 0
    ensures Standing(blocked + [w], p) == Standing(blocked, p) + if w.pid == p then 1 else 0
  {
    if |blocked| == 0 {
      assert blocked + [w] == [w] && [w][1..] == [];
    } else {
      assert (blocked + [w])[1..] == blocked[1..] + [w];
      BlockedAppend(blocked[1..], w, x, p);
    }
  }

  lemma {:induction false} BlockedCut(blocked: seq<Waiter>, i: nat, x: string, p: int)
    requires i < |blocked|
    ensures WaitersIn(Cut(blocked, i), x) == WaitersIn(blocked, x) - if blocked[i].info == x then 1 else 0
    ensures Standing(Cut(blocked, i), p) == Standing(blocked, p) - if blocked[i].pid == p then 1 else 0
  {
    var cut := Cut(blocked, i);
    if i == 0 {
      assert cut == blocked[1..];
    } else {
      assert cut[1..] == Cut(blocked[1..], i - 1);
      BlockedCut(blocked[1..], i - 1, x, p);
    }
  }

  lemma {:induction false} FirstWaiterIff(blocked: seq<Waiter>, x: string)
    ensures FirstWaiter(blocked, x) != -1 <==> WaitersIn(blocked, x) > 0
  {
    if |blocked| > 0 {
      FirstWaiterIff(blocked[1..], x);
    }
  }

  lemma {:induction false} FirstOfIff(blocked: seq<Waiter>, p: int)
    ensures FirstOf(blocked, p) != -1 <==> Standing(blocked, p) > 0
    ensures (exists w :: w in blocked && w.pid == p) <==> Standing(blocked, p) > 0
  {
    if |blocked| > 0 {
      FirstOfIff(blocked[1..], p);
      assert blocked == [blocked[0]] + blocked[1..];
    }
  }

  /** A process at a place counts. */
  lemma {:induction false} StandsAt(blocked: seq<Waiter>, i: nat)
    requires i < |blocked|
    ensures Standing(blocked, blocked[i].pid) > 0 && WaitersIn(blocked, blocked[i].info) > 0
  {
    if i > 0 {
      StandsAt(blocked[1..], i - 1);
    }
  }

  // ----- the waiters of one resource, in order -----

  /** The processes with a context, in the order in which they were blocked. */
  function WaitLine(blocked: seq<Waiter>, x: string): (line: seq<int>) {
    if |blocked| == 0 then []
    else (if blocked[0].info == x then [blocked[0].pid] else []) + WaitLine(blocked[1..], x)
  }

  /** One process more is the last of its line and in no other. */
  lemma {:induction false} LineAppend(blocked: seq<Waiter>, w: Waiter, x: string)
    ensures WaitLine(blocked + [w], x) == WaitLine(blocked, x) + if w.info == x then [w.pid] else []
  {
    var last := if w.info == x then [w.pid] else [];
    if |blocked| == 0 {
      assert blocked + [w] == [w] && [w][1..] == [];
    } else {
      LineAppend(blocked[1..], w, x);
      var head, rest := if blocked[0].info == x then [blocked[0].pid] else [], blocked[1..] + [w];
      assert (blocked + [w])[1..] == rest;
      LineSplit(blocked + [w], x);
      assert head + (WaitLine(blocked[1..], x) + last) == (head + WaitLine(blocked[1..], x)) + last;
    }
  }

  lemma LineSplit(blocked: seq<Waiter>, x: string)
    requires blocked != []
    ensures WaitLine(blocked, x) == (if blocked[0].info == x then [blocked[0].pid] else []) + WaitLine(blocked[1..], x)
  {
  }

  /** A process that leaves is missed in its own line only. */
  lemma {:induction false} LineCutOther(blocked: seq<Waiter>, i: nat, x: string)
    requires i < |blocked| && blocked[i].info != x
    ensures WaitLine(Cut(blocked, i), x) == WaitLine(blocked, x)
  {
    if i == 0 {
      assert Cut(blocked, 0) == blocked[1..];
    } else {
      assert Cut(blocked, i)[1..] == Cut(blocked[1..], i - 1) && Cut(blocked, i)[0] == blocked[0];
      LineCutOther(blocked[1..], i - 1, x);
    }
  }

  /** The waiter found is the one that has waited longest: the line goes on without its head. */
  lemma {:induction false} FirstIsHead(blocked: seq<Waiter>, x: string)
    requires FirstWaiter(blocked, x) != -1
    ensures var i := FirstWaiter(blocked, x);
            [blocked[i].pid] + WaitLine(Cut(blocked, i), x) == WaitLine(blocked, x)
  {
    var i := FirstWaiter(blocked, x);
    if i == 0 {
      assert Cut(blocked, 0) == blocked[1..];
    } else {
      assert Cut(blocked, i)[1..] == Cut(blocked[1..], i - 1) && Cut(blocked, i)[0] == blocked[0];
      FirstIsHead(blocked[1..], x);
    }
  }

  lemma {:induction false} LineLength(blocked: seq<Waiter>, x: string)
    ensures |WaitLine(blocked, x)| == WaitersIn(blocked, x)
  {
    if |blocked| > 0 {
      LineLength(blocked[1..], x);
    }
  }
}
