/**
 CPU and memory together: the page map the memory answers from, what resizes do to a TLB that is never
 told about them, and the isolation of processes from each other.
 */
module ProcessMemory {
  import opened BitStrings
  import opened Paging
  import opened Resizing
  import opened ResizeProof
  import opened FlatMemory
  import opened FlatWrites
  import opened MemoryModule
  import T = TlbModel

  /** The frame of every page of every process, -1 where there is none. */
  function PageMapOf(tables: seq<Table>): (lies: T.PageMap) {
    (pid: int, page: nat) => FrameOf(tables, pid, page)
  }

  // ----- the TLB across resizes -----

  lemma FrameOfMapped(m: Memory, pid: int, page: nat)
    requires Good(m) && FrameOf(m.tables, pid, page) != -1
    ensures var t := TableOf(m.tables, pid);
            t != -1 && page < |m.tables[t].pages| && 0 <= FrameOf(m.tables, pid, page) < |m.bits|
  {
    FramesDistinct(m, TableOf(m.tables, pid), page, TableOf(m.tables, pid), page);
  }

  /** The place of a process's table survives a resize of any process. */
  lemma TablePlace(m: Memory, pid: int, size: nat, p: int)
    requires Good(m) && Resizable(m, pid, size) && TableOf(m.tables, p) != -1
    ensures var t, r := TableOf(m.tables, p), Resize(m, pid, size).0;
            Good(r) && |r.tables| >= |m.tables| && TableOf(r.tables, p) == t && r.tables[t].pid == p
  {
    hide Good, TableOf, Created, Enlarged, Reduced;
    var t, r := TableOf(m.tables, p), Resize(m, pid, size).0;
    ResizeKeeps(m, pid, size);
    PlacesKept(m, pid, size, t);
    TableOfMeans(m.tables, p);
    OnlyTable(r, p, t);
  }

  lemma PlacesKept(m: Memory, pid: int, size: nat, t: nat)
    requires Good(m) && Resizable(m, pid, size) && t < |m.tables|
    ensures var r := Resize(m, pid, size).0;
            && |r.tables| >= |m.tables| && r.tables[t].pid == m.tables[t].pid
            && (t != TableOf(m.tables, pid) ==> r.tables[t].pages == m.tables[t].pages)
  {
    hide Good, Save, FreeFrames, CeilDiv, Reduced;
    GoodSized(m);
    var u := TableOf(m.tables, pid);
    if u != -1 && size < |m.tables[u].pages| * m.P {
      ReducedGood(m, u, size);
      ReducedShape(m, u, size);
      ReducedPid(m, u, size);
    }
  }

  lemma ReducedPid(m: Memory, t: nat, size: nat)
    requires Good(m) && t < |m.tables| && size < |m.tables[t].pages| * m.P
    requires forall i :: 0 <= i < |m.tables[t].pages| ==> 0 <= m.tables[t].pages[i].frame < |m.bits|
    ensures |Reduced(m, t, size).tables| == |m.tables| && Reduced(m, t, size).tables[t].pid == m.tables[t].pid
  {
    hide Taken, Frames;
    DropFits(m, t, size);
    DroppedShape(m.bits, m.tables[t], CeilDiv(|m.tables[t].pages| * m.P - size, m.P));
  }

  /** A page that had a frame and survives keeps it in the page map. */
  lemma SurvivorKeepsFrame(m: Memory, pid: int, size: nat, p: int, page: nat)
    requires Good(m) && Resizable(m, pid, size) && FrameOf(m.tables, p, page) != -1
    requires var t := TableOf(m.tables, pid);
             p == pid && t != -1 && size < |m.tables[t].pages| * m.P ==> page < size / m.P + 1
    ensures FrameOf(Resize(m, pid, size).0.tables, p, page) == FrameOf(m.tables, p, page)
  {
    hide Good, Resize, TableOf, Resizable;
    FrameOfMapped(m, p, page);
    var t := TableOf(m.tables, p);
    TablePlace(m, pid, size, p);
    TableOfMeans(m.tables, p);
    TableOfMeans(m.tables, pid);
    ResizeKeepsPages(m, pid, size, t, page);
  }

  /** A page cut off by a reduction has no frame afterwards. */
  lemma CutPageHasNone(m: Memory, pid: int, size: nat, page: nat)
    requires Good(m) && Resizable(m, pid, size) && TableOf(m.tables, pid) != -1
    requires size < |m.tables[TableOf(m.tables, pid)].pages| * m.P && page >= size / m.P + 1
    ensures FrameOf(Resize(m, pid, size).0.tables, pid, page) == -1
  {
    hide Good, TableOf, Resizable, Resize, CeilDiv;
    TablePlace(m, pid, size, pid);
    ResizeExisting(m, pid, size);
  }

  /** The page of a row is cut off by a resize. */
  predicate CutOff(m: Memory, pid: int, size: nat, row: T.Row)
    requires m.P > 0
  {
    var t := TableOf(m.tables, pid);
    row.pid == pid && t != -1 && size < |m.tables[t].pages| * m.P && row.page >= size / m.P + 1
  }

  /**
   A resize does not tell the TLB. The TLB stays right exactly when none of its rows with a frame is for a
   page that the resize cuts off; creations and enlargements cut off none.
   */
  lemma ResizeCoherentIff(m: Memory, pid: int, size: nat, rows: seq<T.Row>)
    requires Good(m) && Resizable(m, pid, size) && T.Coherent(rows, PageMapOf(m.tables))
    ensures m.P > 0
    ensures T.Coherent(rows, PageMapOf(Resize(m, pid, size).0.tables))
        <==> forall i :: 0 <= i < |rows| && rows[i].frame != -1 ==> !CutOff(m, pid, size, rows[i])
  {
    hide Good, Resize, Resizable, FrameOf;
    GoodSized(m);
    var after := PageMapOf(Resize(m, pid, size).0.tables);
    T.ChangeCoherentIff(rows, PageMapOf(m.tables), after);
    forall i | 0 <= i < |rows| && rows[i].frame != -1
      ensures after(rows[i].pid, rows[i].page) == PageMapOf(m.tables)(rows[i].pid, rows[i].page)
          <==> !CutOff(m, pid, size, rows[i])
    {
      if CutOff(m, pid, size, rows[i]) {
        CutPageHasNone(m, pid, size, rows[i].page);
      } else {
        SurvivorKeepsFrame(m, pid, size, rows[i].pid, rows[i].page);
      }
    }
  }

  // ----- runs of translations and resizes -----

  datatype Event =
    | Translation(pid: int, la: nat, now: int, later: int)
    | Resizing(pid: int, size: nat)

  /** The memory, and the rows of the TLB that never hears of a resize. */
  datatype Machine = Machine(m: Memory, rows: seq<T.Row>)

  predicate Possible(s: Machine, e: Event) {
    e.Resizing? ==> Servable(s.m, Request(e.pid, e.size))
  }

  /** A creation or an enlargement, or a reduction that cuts off no page with a row in the TLB. */
  ghost predicate Harmless(s: Machine, e: Event)
    requires Good(s.m) && Possible(s, e)
  {
    e.Resizing? ==>
      (GoodSized(s.m);
       forall i :: 0 <= i < |s.rows| && s.rows[i].frame != -1 ==> !CutOff(s.m, e.pid, e.size, s.rows[i]))
  }

  ghost function Step(s: Machine, capacity: nat, algorithm: T.Algorithm, e: Event): (r: Machine)
    requires Good(s.m) && |s.rows| <= capacity && Possible(s, e)
    ensures |r.rows| <= capacity
  {
    match e
    case Translation(pid, la, now, later) =>
      s.(rows := T.Fetch(s.rows, capacity, algorithm, pid, la / s.m.P,
                         FrameOf(s.m.tables, pid, la / s.m.P), now, later).0)
    case Resizing(pid, size) =>
      ServedGood(s.m, Request(pid, size));
      s.(m := Resize(s.m, pid, size).0)
  }

  lemma StepGood(s: Machine, capacity: nat, algorithm: T.Algorithm, e: Event)
    requires Good(s.m) && |s.rows| <= capacity && Possible(s, e)
    ensures Good(Step(s, capacity, algorithm, e).m)
  {
    hide Good, Resize, Servable;
    if e.Resizing? {
      ServedGood(s.m, Request(e.pid, e.size));
    }
  }

  lemma StepKeeps(s: Machine, capacity: nat, algorithm: T.Algorithm, e: Event)
    requires Good(s.m) && |s.rows| <= capacity && Possible(s, e) && Harmless(s, e) && T.Coherent(s.rows, PageMapOf(s.m.tables))
    ensures var r := Step(s, capacity, algorithm, e);
            Good(r.m) && r.m.P == s.m.P && T.Coherent(r.rows, PageMapOf(r.m.tables))
  {
    hide Good, Resize, Resizable, FrameOf, CutOff;
    GoodSized(s.m);
    match e
    case Translation(pid, la, now, later) =>
      T.FetchIsPageTable(s.rows, capacity, algorithm, pid, la / s.m.P, now, later, PageMapOf(s.m.tables));
    case Resizing(pid, size) =>
      ServedGood(s.m, Request(pid, size));
      SamePageSize(s.m, pid, size);
      ResizeCoherentIff(s.m, pid, size, s.rows);
  }

  lemma SamePageSize(m: Memory, pid: int, size: nat)
    requires Resizable(m, pid, size)
    ensures Resize(m, pid, size).0.P == m.P
  {
  }

  ghost predicate PossibleRun(s: Machine, capacity: nat, algorithm: T.Algorithm, es: seq<Event>)
    requires Good(s.m) && |s.rows| <= capacity
    decreases |es|
  {
    |es| == 0 || (
      && Possible(s, es[0])
      && (StepGood(s, capacity, algorithm, es[0]);
          PossibleRun(Step(s, capacity, algorithm, es[0]), capacity, algorithm, es[1..])))
  }

  ghost function RunOf(s: Machine, capacity: nat, algorithm: T.Algorithm, es: seq<Event>): (r: Machine)
    requires Good(s.m) && |s.rows| <= capacity && PossibleRun(s, capacity, algorithm, es)
    decreases |es|
  {
    if |es| == 0 then s
    else
      StepGood(s, capacity, algorithm, es[0]);
      RunOf(Step(s, capacity, algorithm, es[0]), capacity, algorithm, es[1..])
  }

  ghost predicate HarmlessRun(s: Machine, capacity: nat, algorithm: T.Algorithm, es: seq<Event>)
    requires Good(s.m) && |s.rows| <= capacity && PossibleRun(s, capacity, algorithm, es)
    decreases |es|
  {
    |es| == 0 || (
      && Harmless(s, es[0])
      && (StepGood(s, capacity, algorithm, es[0]);
          HarmlessRun(Step(s, capacity, algorithm, es[0]), capacity, algorithm, es[1..])))
  }

  lemma {:induction false} RunCoherent(s: Machine, capacity: nat, algorithm: T.Algorithm, es: seq<Event>)
    requires Good(s.m) && |s.rows| <= capacity && T.Coherent(s.rows, PageMapOf(s.m.tables))
    requires PossibleRun(s, capacity, algorithm, es) && HarmlessRun(s, capacity, algorithm, es)
    ensures var r := RunOf(s, capacity, algorithm, es);
            Good(r.m) && r.m.P == s.m.P && |r.rows| <= capacity && T.Coherent(r.rows, PageMapOf(r.m.tables))
    decreases |es|
  {
    hide Good, Harmless, Step, Possible;
    if |es| > 0 {
      StepGood(s, capacity, algorithm, es[0]);
      StepKeeps(s, capacity, algorithm, es[0]);
      RunCoherent(Step(s, capacity, algorithm, es[0]), capacity, algorithm, es[1..]);
    }
  }

  /**
   From an empty TLB, after any run of translations, creations, enlargements and harmless reductions, with no
   TLB or under any algorithm, the next translation gives the page table's frame and the offset in the page.
   */
  lemma TranslationIsPageTable(m: Memory, capacity: nat, algorithm: T.Algorithm, es: seq<Event>,
                               pid: int, la: nat, now: int, later: int)
    requires Good(m) && |m.mem| <= 0x1_0000_0000
    requires PossibleRun(Machine(m, []), capacity, algorithm, es) && HarmlessRun(Machine(m, []), capacity, algorithm, es)
    ensures var s := RunOf(Machine(m, []), capacity, algorithm, es);
            && s.m.P == m.P > 0 && |s.rows| <= capacity
            && var f := FrameOf(s.m.tables, pid, la / m.P);
               T.Physical(T.Fetch(s.rows, capacity, algorithm, pid, la / m.P, f, now, later).1, m.P, la)
               == T.Physical(f, m.P, la)
  {
    hide Good, HarmlessRun, RunOf, FrameOf, PossibleRun, T.Physical;
    GoodSized(m);
    RunCoherent(Machine(m, []), capacity, algorithm, es);
    var s := RunOf(Machine(m, []), capacity, algorithm, es);
    T.FetchIsPageTable(s.rows, capacity, algorithm, pid, la / m.P, now, later, PageMapOf(s.m.tables));
  }

  /** Only pages with a frame are translated. */
  ghost predicate MappedRun(s: Machine, capacity: nat, algorithm: T.Algorithm, es: seq<Event>)
    requires Good(s.m) && |s.rows| <= capacity && PossibleRun(s, capacity, algorithm, es)
    decreases |es|
  {
    |es| == 0 || (
      && (GoodSized(s.m);
          es[0].Translation? ==> FrameOf(s.m.tables, es[0].pid, es[0].la / s.m.P) != -1)
      && (StepGood(s, capacity, algorithm, es[0]);
          MappedRun(Step(s, capacity, algorithm, es[0]), capacity, algorithm, es[1..])))
  }

  /**
   Over all such runs, whatever the resizes cut off, no page ever has two rows, no row is without a frame, and there
   are no more rows than the capacity.
   */
  lemma {:induction false} RunUnique(s: Machine, capacity: nat, algorithm: T.Algorithm, es: seq<Event>)
    requires Good(s.m) && |s.rows| <= capacity && T.OneRowEach(s.rows)
    requires PossibleRun(s, capacity, algorithm, es) && MappedRun(s, capacity, algorithm, es)
    ensures var r := RunOf(s, capacity, algorithm, es); |r.rows| <= capacity && T.OneRowEach(r.rows)
    decreases |es|
  {
    hide Good, Servable, T.OneRowEach, FrameOf, Resize, T.Fetch;
    if |es| > 0 {
      GoodSized(s.m);
      StepGood(s, capacity, algorithm, es[0]);
      if es[0].Translation? {
        T.FetchKeepsOneRow(s.rows, capacity, algorithm, es[0].pid, es[0].la / s.m.P,
                           FrameOf(s.m.tables, es[0].pid, es[0].la / s.m.P), es[0].now, es[0].later);
      }
      RunUnique(Step(s, capacity, algorithm, es[0]), capacity, algorithm, es[1..]);
    }
  }

  /** Creations and enlargements cut off no page. */
  lemma GrowthIsHarmless(s: Machine, pid: int, size: nat)
    requires Good(s.m) && Possible(s, Resizing(pid, size))
    requires TableOf(s.m.tables, pid) == -1 || size >= |s.m.tables[TableOf(s.m.tables, pid)].pages| * s.m.P
    ensures Harmless(s, Resizing(pid, size))
  {
    hide Good, TableOf;
    GoodSized(s.m);
  }

  /** A reduction that cuts off a page with a row: the next translation of that page gives a frame it lost. */
  lemma StaleRow(s: Machine, pid: int, size: nat, page: nat, now: int, later: int)
    requires Good(s.m) && Resizable(s.m, pid, size) && T.Coherent(s.rows, PageMapOf(s.m.tables))
    requires T.Find(s.rows, pid, page) != -1 && s.rows[T.Find(s.rows, pid, page)].frame != -1
    requires CutOff(s.m, pid, size, s.rows[T.Find(s.rows, pid, page)])
    ensures var after := Resize(s.m, pid, size).0;
            && FrameOf(after.tables, pid, page) == -1
            && T.Fetch(s.rows, |s.rows|, T.FIFO, pid, page, -1, now, later).1 == FrameOf(s.m.tables, pid, page) != -1
  {
    hide Good, Resizable, TableOf, Resize;
    GoodSized(s.m);
    CutPageHasNone(s.m, pid, size, page);
  }

  /** The memory when its program starts. */
  function Started(P: nat, frames: nat): (m: Memory)
    requires P > 0
  {
    Memory(P, seq(frames, i => false), seq(frames * P, i => 0), [], 0)
  }

  lemma StartedGood(P: nat, frames: nat)
    requires P > 0
    ensures Good(Started(P, frames)) && |FreeFrames(Started(P, frames).bits)| == frames
  {
    NothingTaken(Started(P, frames).bits);
  }

  /** A process is made with two pages. */
  lemma TwoPages(m: Memory, pid: int)
    requires Good(m) && TableOf(m.tables, pid) == -1 && m.P > 0 && |FreeFrames(m.bits)| >= 2
    ensures Possible(Machine(m, []), Resizing(pid, 2 * m.P))
    ensures var s := Step(Machine(m, []), 1, T.FIFO, Resizing(pid, 2 * m.P));
            && Good(s.m) && s.rows == [] && s.m.P == m.P
            && TableOf(s.m.tables, pid) != -1 && |s.m.tables[TableOf(s.m.tables, pid)].pages| == 2
            && FrameOf(s.m.tables, pid, 1) != -1
  {
    hide Good, FreeFrames, CeilDiv, TableOf, Resize;
    ServedGood(m, Request(pid, 2 * m.P));
    CeilOfMultiple(2, m.P);
    ResizeFresh(m, pid, 2 * m.P);
    SamePageSize(m, pid, 2 * m.P);
    var r := Resize(m, pid, 2 * m.P).0;
    var t := TableOf(r.tables, pid);
    TableOfMeans(r.tables, pid);
    FramesDistinct(r, t, 1, t, 1);
  }

  /**
   From the start, with two frames or more: a process is made with two pages, its second page is translated, and it
   is cut down to size 0. The page has no frame any more and is translated to one all the same.
   */
  lemma StaleFromStart(P: nat, frames: nat, pid: int, now: int, later: int)
    requires P > 0 && frames >= 2
    ensures Good(Started(P, frames))
    ensures var s := Machine(Started(P, frames), []);
            var es := [Resizing(pid, 2 * P), Translation(pid, P, now, later), Resizing(pid, 0)];
            && PossibleRun(s, 1, T.FIFO, es)
            && var r := RunOf(s, 1, T.FIFO, es);
               && |r.rows| == 1 && FrameOf(r.m.tables, pid, 1) == -1
               && T.Fetch(r.rows, 1, T.FIFO, pid, 1, -1, now, later).1 != -1
  {
    hide Good, FreeFrames, TableOf, Resize, Servable, Step;
    StartedGood(P, frames);
    var m := Started(P, frames);
    assert m.tables == [];
    TableOfMeans(m.tables, pid);
    TwoPages(m, pid);
    var s := Machine(m, []);
    var one := Step(s, 1, T.FIFO, Resizing(pid, 2 * P));
    SecondPage(one, pid, now, later);
    var two := Step(one, 1, T.FIFO, Translation(pid, P, now, later));
    StaleRow(two, pid, 0, 1, now, later);
    LastStep(two, pid);
    ThreeSteps(s, Resizing(pid, 2 * P), Translation(pid, P, now, later), Resizing(pid, 0));
  }

  lemma LastStep(s: Machine, pid: int)
    requires Good(s.m) && |s.rows| <= 1 && Possible(s, Resizing(pid, 0))
    ensures Resizable(s.m, pid, 0) && Step(s, 1, T.FIFO, Resizing(pid, 0)) == s.(m := Resize(s.m, pid, 0).0)
  {
    ServedGood(s.m, Request(pid, 0));
  }

  lemma SecondPage(s: Machine, pid: int, now: int, later: int)
    requires Good(s.m) && s.m.P > 0 && s.rows == [] && TableOf(s.m.tables, pid) != -1
    requires |s.m.tables[TableOf(s.m.tables, pid)].pages| == 2 && FrameOf(s.m.tables, pid, 1) != -1
    ensures Possible(s, Translation(pid, s.m.P, now, later))
    ensures var r := Step(s, 1, T.FIFO, Translation(pid, s.m.P, now, later));
            && r == s.(rows := [T.Row(pid, 1, FrameOf(s.m.tables, pid, 1), later)])
            && T.Coherent(r.rows, PageMapOf(r.m.tables)) && T.Find(r.rows, pid, 1) == 0
            && CutOff(r.m, pid, 0, r.rows[0]) && Possible(r, Resizing(pid, 0)) && Resizable(r.m, pid, 0)
  {
    hide Good, TableOf;
    assert s.m.P / s.m.P == 1 && 0 / s.m.P == 0;
    var row := T.Row(pid, 1, FrameOf(s.m.tables, pid, 1), later);
    assert T.Fetch([], 1, T.FIFO, pid, 1, row.frame, now, later).0 == [row];
    assert T.Find([row], pid, 1) == 0;
    ServedGood(s.m, Request(pid, 0));
  }

  lemma ThreeSteps(s: Machine, a: Event, b: Event, c: Event)
    requires Good(s.m) && |s.rows| <= 1 && Possible(s, a)
    requires var one := Step(s, 1, T.FIFO, a);
             && Good(one.m) && Possible(one, b)
             && var two := Step(one, 1, T.FIFO, b); Good(two.m) && Possible(two, c)
    ensures PossibleRun(s, 1, T.FIFO, [a, b, c])
    ensures var two := Step(Step(s, 1, T.FIFO, a), 1, T.FIFO, b);
            RunOf(s, 1, T.FIFO, [a, b, c]) == Step(two, 1, T.FIFO, c)
  {
    hide Good, Step, Possible;
    var one := Step(s, 1, T.FIFO, a);
    var two := Step(one, 1, T.FIFO, b);
    assert [a, b, c][1..] == [b, c] && [b, c][1..] == [c] && [c][1..] == [];
    StepGood(two, 1, T.FIFO, c);
    var three := Step(two, 1, T.FIFO, c);
    assert PossibleRun(three, 1, T.FIFO, []) && RunOf(three, 1, T.FIFO, []) == three;
    assert PossibleRun(two, 1, T.FIFO, [c]) && RunOf(two, 1, T.FIFO, [c]) == three;
    assert PossibleRun(one, 1, T.FIFO, [b, c]) && RunOf(one, 1, T.FIFO, [b, c]) == three;
  }

  // ----- addresses -----

  /** Different bytes of the processes' memories have different physical addresses. */
  lemma AddressesDistinct(m: Memory, p: int, la: nat, q: int, lb: nat)
    requires Good(m) && |m.mem| <= 0x1_0000_0000
    requires FrameOf(m.tables, p, la / m.P) != -1 && FrameOf(m.tables, q, lb / m.P) != -1
    ensures T.Physical(FrameOf(m.tables, p, la / m.P), m.P, la) == T.Physical(FrameOf(m.tables, q, lb / m.P), m.P, lb)
        <==> p == q && la == lb
  {
    hide Good, FrameOf, T.Physical;
    GoodSized(m);
    var f, g := FrameOf(m.tables, p, la / m.P), FrameOf(m.tables, q, lb / m.P);
    PhysicalIs(m, p, la);
    PhysicalIs(m, q, lb);
    SameFrame(m, p, la / m.P, q, lb / m.P);
    SameAddress(m.P, f, la % m.P, g, lb % m.P);
    SameAddress(m.P, la / m.P, la % m.P, lb / m.P, lb % m.P);
    SameQuotient(la, m.P, la / m.P, la % m.P);
    SameQuotient(lb, m.P, lb / m.P, lb % m.P);
  }

  /** Two pages lie on the same frame only if they are the same page. */
  lemma SameFrame(m: Memory, p: int, page: nat, q: int, other: nat)
    requires Good(m) && FrameOf(m.tables, p, page) != -1 && FrameOf(m.tables, q, other) != -1
    ensures FrameOf(m.tables, p, page) == FrameOf(m.tables, q, other) <==> p == q && page == other
  {
    hide Good, TableOf;
    FrameOfMapped(m, p, page);
    FrameOfMapped(m, q, other);
    TableOfMeans(m.tables, p);
    TableOfMeans(m.tables, q);
    FramesDistinct(m, TableOf(m.tables, p), page, TableOf(m.tables, q), other);
  }

  lemma SameAddress(P: nat, f: nat, d: nat, g: nat, e: nat)
    requires d < P && e < P
    ensures f * P + d == g * P + e <==> f == g && d == e
  {
    SameQuotient(f * P + d, P, f, d);
    SameQuotient(g * P + e, P, g, e);
  }

  lemma PhysicalIs(m: Memory, p: int, la: nat)
    requires Good(m) && m.P > 0 && |m.mem| <= 0x1_0000_0000 && FrameOf(m.tables, p, la / m.P) != -1
    ensures var f := FrameOf(m.tables, p, la / m.P);
            f >= 0 && T.Physical(f, m.P, la) == f * m.P + la % m.P
  {
    hide Good, FrameOf;
    GoodSized(m);
    FrameOfMapped(m, p, la / m.P);
    FrameInRange(m.P, |m.bits|, FrameOf(m.tables, p, la / m.P));
  }

  lemma SameQuotient(v: nat, P: nat, q: nat, r: nat)
    requires P > 0 && r < P
    ensures v == q * P + r ==> v / P == q && v % P == r
    ensures q == v / P && r == v % P ==> v == q * P + r
  {
    if v == q * P + r {
      assert q * P == P * q;
      DivisionIsUnique(v, P, q, r);
    }
    assert v == P * (v / P) + v % P;
  }

  // ----- isolation -----

  /** Good memory gives every process pages it can be read and written through. */
  lemma GoodMapped(m: Memory, t: nat)
    requires Good(m) && t < |m.tables|
    ensures Mapped(m.P, m.mem, m.tables[t].pages)
  {
    var pages := m.tables[t].pages;
    forall i | 0 <= i < |pages|
      ensures InMemory(m.P, m.mem, pages[i].frame)
    {
      FramesDistinct(m, t, i, t, i);
      FrameInRange(m.P, |m.bits|, pages[i].frame);
    }
    forall i, j | 0 <= i < j < |pages|
      ensures pages[i].frame != pages[j].frame
    {
      FramesDistinct(m, t, i, t, j);
    }
  }

  /** A write of one process that acts on its flat bytes leaves the flat bytes of every other process. */
  lemma WriteIsolated(m: Memory, t: nat, u: nat, i: nat, off: nat, data: seq<byte>)
    requires Good(m) && t < |m.tables| && u < |m.tables| && u != t
    requires Mapped(m.P, m.mem, m.tables[t].pages) && Mapped(m.P, m.mem, m.tables[u].pages)
    requires i < |m.tables[t].pages| && off < m.P
    requires ActsFlat(m.P, m.mem, m.tables[t].pages, i, off, data)
    ensures var r := WriteAt(m.P, m.mem, m.tables[t].pages, m.tables[t].pages[i].frame, off, data);
            Mapped(m.P, r.value, m.tables[u].pages)
            && Flat(m.P, r.value, m.tables[u].pages) == Flat(m.P, m.mem, m.tables[u].pages)
  {
    hide WriteAt, FrameBytes;
    var mine, others := m.tables[t].pages, m.tables[u].pages;
    var r := WriteAt(m.P, m.mem, mine, mine[i].frame, off, data);
    forall k | 0 <= k < |others|
      ensures OnNone(mine, others[k].frame)
    {
      forall j | 0 <= j < |mine|
        ensures mine[j].frame != others[k].frame
      {
        FramesDistinct(m, t, j, u, k);
      }
    }
    FlatUnchanged(m.P, m.mem, r.value, others);
  }
}
