/**
 The kernel's resources as a transition system: instance counters, what each process has on record, the
 processes blocked, and the threads that have seen a waiter and are about to wake it.
 */
module ResourceModel {
  import opened Lists
  import opened BlockedList

  /** What a process has on record: what it holds, and what it waits for. */
  datatype Record = Record(pid: int, held: seq<string>)

  datatype Cpu = Free | Blocking(pid: int, name: string) | Hung

  datatype Store = Store(names: seq<string>, inst: seq<int>, records: seq<Record>, blocked: seq<Waiter>)

  /** `seen`: for each thread between its search and its waking, the resource it searched for. */
  datatype System = System(store: Store, cpu: Cpu, seen: seq<string>, crashed: bool)

  datatype Reply = Continue | Block | EmptyInstance | NoReply

  /** findIndexOfString. */
  function Index(names: seq<string>, x: string): (i: int)
    ensures i == -1 <==> x !in names
    ensures i != -1 ==> 0 <= i < |names| && names[i] == x && forall j :: 0 <= j < i ==> names[j] != x
  {
    if |names| == 0 then -1
    else if names[0] == x then 0
    else
      var i := Index(names[1..], x);
      assert forall j :: 1 <= j < |names| ==> names[j] == names[1..][j - 1];
      if i == -1 then -1 else i + 1
  }

  /** buscarRecursosDePID. */
  function RecordOf(records: seq<Record>, pid: int): (i: int)
    ensures i == -1 ==> forall j :: 0 <= j < |records| ==> records[j].pid != pid
    ensures i != -1 ==> 0 <= i < |records| && records[i].pid == pid
  {
    if |records| == 0 then -1
    else if records[0].pid == pid then 0
    else
      var i := RecordOf(records[1..], pid);
      assert forall j :: 1 <= j < |records| ==> records[j] == records[1..][j - 1];
      if i == -1 then -1 else i + 1
  }

  predicate Shaped(s: Store) {
    |s.names| == |s.inst|
  }

  function Recording(s: Store, pid: int, name: string): (r: seq<Record>) {
    var t := RecordOf(s.records, pid);
    if t == -1 then s.records else s.records[t := Record(s.records[t].pid, s.records[t].held + [name])]
  }

  function Unrecording(s: Store, pid: int, name: string): (r: seq<Record>) {
    var t := RecordOf(s.records, pid);
    if t == -1 then s.records else s.records[t := Record(s.records[t].pid, Remove(s.records[t].held, name))]
  }

  /** WAIT: one instance less and one on record; blocked if that leaves less than none. */
  function WaitFor(s: Store, pid: int, name: string): (r: (Store, Reply))
    requires Shaped(s)
    ensures Shaped(r.0)
  {
    var i := Index(s.names, name);
    if i == -1 then (s, EmptyInstance)
    else
      var n := s.inst[i] - 1;
      (s.(inst := s.inst[i := n], records := Recording(s, pid, name)), if n < 0 then Block else Continue)
  }

  /** SIGNAL up to its search: the reply is missing when the instances stay below none. */
  function SignalFor(s: Store, pid: int, name: string): (r: (Store, Reply))
    requires Shaped(s)
    ensures Shaped(r.0)
  {
    var i := Index(s.names, name);
    if i == -1 then (s, EmptyInstance)
    else
      var n := s.inst[i] + 1;
      (s.(inst := s.inst[i := n], records := Unrecording(s, pid, name)), if n >= 0 then Continue else NoReply)
  }

  /** One round of liberarRecursos up to its search, for the first resource on record of place `t`. */
  function ReleaseFirst(s: Store, t: nat): (r: Store)
    requires Shaped(s) && t < |s.records| && s.records[t].held != []
    ensures Shaped(r)
  {
    var name := s.records[t].held[0];
    var records := s.records[t := Record(s.records[t].pid, Remove(s.records[t].held, name))];
    var i := Index(s.names, name);
    if i == -1 then s.(records := records)
    else s.(inst := s.inst[i := s.inst[i] + 1], records := records)
  }

  /** desblockPcb for a resource, after it was seen that someone waits. */
  function WakeFirst(s: Store, name: string): (r: Store)
    requires FirstWaiter(s.blocked, name) != -1
  {
    var i := FirstWaiter(s.blocked, name);
    s.(blocked := Cut(s.blocked, i))
  }

  // ----- steps -----

  datatype Step =
    | Wait(pid: int, name: string)        // the process on the CPU asks
    | Arrive                              // and comes back to be blocked
    | Signal(pid: int, name: string)
    | Release(t: nat)                     // one round of liberarRecursos
    | Wake(name: string)
    | NewRecord(pid: int)
    | BlockIo(pid: int, operation: string)
    | EndIo(i: nat)
    | KillWaiter(i: nat)

  function LookFor(s: System, store: Store, name: string): (r: System) {
    if FirstWaiter(store.blocked, name) == -1 then s.(store := store)
    else s.(store := store, seen := s.seen + [name])
  }

  predicate Enabled(s: System, a: Step) {
    !s.crashed && Shaped(s.store) &&
    match a
    case Wait(_, _) => s.cpu == Free
    case Signal(_, _) => s.cpu == Free
    case Arrive => s.cpu.Blocking?
    case Release(t) => t < |s.store.records| && s.store.records[t].held != []
    case Wake(name) => name in s.seen
    case NewRecord(_) => true
    case BlockIo(_, operation) => s.cpu == Free && operation !in s.store.names
    case EndIo(i) => i < |s.store.blocked| && s.store.blocked[i].info !in s.store.names
    case KillWaiter(i) => i < |s.store.blocked| && s.store.blocked[i].info in s.store.names
  }

  function Next(s: System, a: Step): (r: System)
    requires Enabled(s, a)
    ensures Shaped(r.store) && r.store.names == s.store.names
  {
    match a
    case Wait(pid, name) =>
      var w := WaitFor(s.store, pid, name);
      s.(store := w.0, cpu := if w.1 == Block then Blocking(pid, name) else Free)
    case Arrive =>
      s.(store := s.store.(blocked := s.store.blocked + [Waiter(s.cpu.pid, s.cpu.name)]), cpu := Free)
    case Signal(pid, name) =>
      var w := SignalFor(s.store, pid, name);
      if w.1 == Continue then LookFor(s, w.0, name)
      else s.(store := w.0, cpu := if w.1 == NoReply then Hung else Free)
    case Release(t) => LookFor(s, ReleaseFirst(s.store, t), s.store.records[t].held[0])
    case Wake(name) =>
      if FirstWaiter(s.store.blocked, name) == -1 then s.(crashed := true)
      else s.(store := WakeFirst(s.store, name), seen := Remove(s.seen, name))
    case NewRecord(pid) =>
      if RecordOf(s.store.records, pid) != -1 then s
      else s.(store := s.store.(records := s.store.records + [Record(pid, [])]))
    case BlockIo(pid, operation) =>
      s.(store := s.store.(blocked := s.store.blocked + [Waiter(pid, operation)]))
    case EndIo(i) => s.(store := s.store.(blocked := Cut(s.store.blocked, i)))
    case KillWaiter(i) => s.(store := s.store.(blocked := Cut(s.store.blocked, i)))
  }

  // ----- counting -----

  /** How often a resource is on record, over all processes. */
  function Recorded(records: seq<Record>, x: string): (n: nat) {
    if |records| == 0 then 0 else Occurs(records[0].held, x) + Recorded(records[1..], x)
  }

  /** The processes that wait for a resource: blocked, or told to block and on the way. */
  function Waiting(s: System, x: string): (n: nat) {
    WaitersIn(s.store.blocked, x) + if s.cpu.Blocking? && s.cpu.name == x then 1 else 0
  }

  function Instances(s: Store, x: string): int
    requires Shaped(s) && x in s.names
  {
    s.inst[Index(s.names, x)]
  }

  /** Units given to processes: on record, less the records of those still waiting. */
  function Granted(s: System, x: string): int {
    Recorded(s.store.records, x) - Waiting(s, x)
  }
}
