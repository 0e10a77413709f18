/**
 What a resize achieves and what it keeps: frame ownership over all runs, the exact number of pages, the
 exact reported value, and the bytes of every surviving page.
 */
module ResizeProof {
  import opened BitStrings
  import opened Paging
  import opened Resizing

  // ----- arithmetic -----

  lemma CeilOfMultiple(k: nat, P: nat)
    requires P > 0
    ensures CeilDiv(k * P, P) == k
  {
    assert k * P + P - 1 == P * k + (P - 1);
    DivisionIsUnique(k * P + P - 1, P, k, P - 1);
  }

  lemma CeilAbove(k: nat, s: nat, P: nat)
    requires P > 0 && s > k * P
    ensures k + CeilDiv(s - k * P, P) == CeilDiv(s, P)
  {
    var c, r := (s - k * P + P - 1) / P, (s - k * P + P - 1) % P;
    assert s - k * P + P - 1 == P * c + r;
    assert s + P - 1 == P * (k + c) + r;
    DivisionIsUnique(s + P - 1, P, k + c, r);
  }

  /** The pages a size needs cover it, with less than a page to spare. */
  lemma CeilCovers(s: nat, P: nat)
    requires P > 0
    ensures s <= CeilDiv(s, P) * P < s + P
  {
    var c := CeilDiv(s, P);
    assert s + P - 1 == P * c + (s + P - 1) % P;
  }

  lemma FloorBounds(s: nat, P: nat)
    requires P > 0
    ensures s < (s / P + 1) * P <= s + P
    ensures s / P + 1 == CeilDiv(s, P) <==> s % P != 0
  {
    var q, r := s / P, s % P;
    assert s == P * q + r;
    assert (q + 1) * P == P * q + P;
    if r == 0 {
      assert s + P - 1 == P * q + (P - 1);
      DivisionIsUnique(s + P - 1, P, q, P - 1);
    } else {
      assert s + P - 1 == P * (q + 1) + (r - 1);
      DivisionIsUnique(s + P - 1, P, q + 1, r - 1);
    }
  }

  // ----- allocation when there is room -----

  lemma SaveWithRoom(P: nat, bits: seq<bool>, mem: seq<byte>, nextId: int, data: seq<byte>)
    requires Sized(P, bits, mem) && |data| > 0 && CeilDiv(|data|, P) <= |FreeFrames(bits)|
    ensures var a := Save(P, bits, mem, nextId, data);
            && |a.pages| == CeilDiv(|data|, P) > 0
            && a.nextId == nextId + |a.pages|
            && forall j :: 0 <= j < |a.pages| ==> a.pages[j].id == nextId + j
  {
    hide Save, FreeFrames, CeilDiv, Wanted;
    WantedIsCeil(P, |data|);
    SaveTakesLowest(P, bits, mem, nextId, data);
  }

  // ----- reduction -----

  /** Pages dropped from the end: the table keeps its first pages. */
  lemma {:induction false} DroppedShape(bits: seq<bool>, t: Table, n: nat)
    requires n <= |t.pages|
    requires forall i :: 0 <= i < |t.pages| ==> 0 <= t.pages[i].frame < |bits|
    ensures var gone := if n == 0 then 0 else n - 1;
            Dropped(bits, t, n).1 == Table(t.pid, t.pages[..|t.pages| - gone], t.lastUsedPageID - gone)
    decreases n
  {
    if n > 1 {
      var last := |t.pages| - 1;
      var front := t.pages[..last];
      DroppedShape(bits[t.pages[last].frame := false], t.(pages := front, lastUsedPageID := t.lastUsedPageID - 1), n - 1);
      assert front[..last - (n - 2)] == t.pages[..|t.pages| - (n - 1)];
    } else {
      assert t.pages[..|t.pages|] == t.pages;
    }
  }

  /** Exactly the frames of the dropped pages are freed. */
  lemma {:induction false} DroppedTaken(bits: seq<bool>, t: Table, n: nat)
    requires n <= |t.pages| && Frames(t.pages) <= Taken(bits)
    requires forall i :: 0 <= i < |t.pages| ==> 0 <= t.pages[i].frame < |bits|
    ensures Taken(Dropped(bits, t, n).0) + Frames(t.pages) == Taken(bits) + Frames(Dropped(bits, t, n).1.pages)
    decreases n
  {
    hide Taken, Frames;
    if n > 1 {
      var last := |t.pages| - 1;
      var f, front := t.pages[last].frame, t.pages[..last];
      FramesLast(t.pages);
      FrameIsTaken(bits, Frames(t.pages), f);
      TakenClear(bits, f);
      OneLess(Frames(front), Taken(bits[f := false]), f);
      var after := t.(pages := front, lastUsedPageID := t.lastUsedPageID - 1);
      DroppedTaken(bits[f := false], after, n - 1);
      var r := Dropped(bits[f := false], after, n - 1);
      AddOne(Taken(r.0), Frames(front), Taken(bits[f := false]), Frames(r.1.pages), f);
    }
  }

  lemma FrameIsTaken(bits: seq<bool>, frames: multiset<int>, f: nat)
    requires f < |bits| && frames <= Taken(bits) && frames[f] > 0
    ensures bits[f]
  {
  }

  lemma OneLess(a: multiset<int>, b: multiset<int>, f: int)
    requires a + multiset{f} <= b + multiset{f}
    ensures a <= b
  {
    forall g
      ensures a[g] <= b[g]
    {
      assert (a + multiset{f})[g] <= (b + multiset{f})[g];
    }
  }

  lemma AddOne(a: multiset<int>, b: multiset<int>, c: multiset<int>, d: multiset<int>, f: int)
    requires a + b == c + d
    ensures a + (b + multiset{f}) == c + multiset{f} + d
  {
    var p, q := a + (b + multiset{f}), c + multiset{f} + d;
    forall g
      ensures p[g] == q[g]
    {
      assert (a + b)[g] == (c + d)[g];
    }
  }

  /** Dropping pages writes no memory. */
  lemma TableFramesTaken(m: Memory, t: nat)
    requires Good(m) && t < |m.tables|
    ensures Frames(m.tables[t].pages) <= Taken(m.bits)
    ensures forall i :: 0 <= i < |m.tables[t].pages| ==> 0 <= m.tables[t].pages[i].frame < |m.bits|
  {
    forall f
      ensures Frames(m.tables[t].pages)[f] <= Taken(m.bits)[f]
    {
      AllFramesHas(m.tables, t, f);
    }
    forall i | 0 <= i < |m.tables[t].pages|
      ensures 0 <= m.tables[t].pages[i].frame < |m.bits|
    {
      FramesDistinct(m, t, i, t, i);
    }
  }

  // ----- the invariant -----

  lemma ChangedTableGood(m: Memory, bits: seq<bool>, mem: seq<byte>, t: nat, x: Table)
    requires Good(m) && t < |m.tables| && Sized(m.P, bits, mem)
    requires x.pid == m.tables[t].pid && Numbered(x)
    requires Taken(bits) + Frames(m.tables[t].pages) == Taken(m.bits) + Frames(x.pages)
    ensures Good(m.(bits := bits, mem := mem, tables := m.tables[t := x]))
  {
    hide Frames, Taken;
    AllFramesChange(m.tables, t, x);
    CancelRight(AllFrames(m.tables[t := x]), Taken(bits), Frames(m.tables[t].pages));
  }

  lemma CancelRight(a: multiset<int>, b: multiset<int>, c: multiset<int>)
    requires a + c == b + c
    ensures a == b
  {
    forall g
      ensures a[g] == b[g]
    {
      assert (a + c)[g] == (b + c)[g];
    }
  }

  lemma CreatedGood(m: Memory, pid: int, size: nat)
    requires Good(m) && TableOf(m.tables, pid) == -1 && size > 0
    ensures Good(Created(m, pid, size))
    ensures |FreeFrames(m.bits)| >= CeilDiv(size, m.P) ==>
              && |Created(m, pid, size).tables| == |m.tables| + 1
              && Created(m, pid, size).tables[..|m.tables|] == m.tables
              && Created(m, pid, size).tables[|m.tables|].pid == pid
              && |Created(m, pid, size).tables[|m.tables|].pages| == CeilDiv(size, m.P)
  {
    hide Frames, Taken, Save, FreeFrames, CeilDiv;
    var need := CeilDiv(size, m.P);
    if |FreeFrames(m.bits)| >= need {
      CeilCovers(size, m.P);
      CeilOfMultiple(need, m.P);
      SaveWithRoom(m.P, m.bits, m.mem, m.idGlobal, Stars(need * m.P));
      SaveTaken(m.P, m.bits, m.mem, m.idGlobal, Stars(need * m.P));
      var r := Created(m, pid, size);
      assert r.tables[..|m.tables|] == m.tables;
    }
  }

  lemma EnlargedGood(m: Memory, t: nat, diff: nat)
    requires Good(m) && t < |m.tables| && diff > 0 && CeilDiv(diff, m.P) <= |FreeFrames(m.bits)|
    ensures Good(Enlarged(m, t, diff))
    ensures |Enlarged(m, t, diff).tables[t].pages| == |m.tables[t].pages| + CeilDiv(diff, m.P)
  {
    hide Frames, Taken, Save, FreeFrames, CeilDiv;
    var table := m.tables[t];
    SaveWithRoom(m.P, m.bits, m.mem, table.lastUsedPageID, Stars(diff));
    SaveTaken(m.P, m.bits, m.mem, table.lastUsedPageID, Stars(diff));
    var a := Save(m.P, m.bits, m.mem, table.lastUsedPageID, Stars(diff));
    FramesConcat(table.pages, a.pages);
    Rearrange(Taken(m.bits), Frames(a.pages), Frames(table.pages));
    ChangedTableGood(m, a.bits, a.mem, t, Table(table.pid, table.pages + a.pages, a.nextId));
  }

  lemma Rearrange(a: multiset<int>, b: multiset<int>, c: multiset<int>)
    ensures a + b + c == a + (c + b)
  {
  }

  lemma ReducedGood(m: Memory, t: nat, size: nat)
    requires Good(m) && t < |m.tables| && size < |m.tables[t].pages| * m.P
    requires forall i :: 0 <= i < |m.tables[t].pages| ==> 0 <= m.tables[t].pages[i].frame < |m.bits|
    ensures Good(Reduced(m, t, size))
    ensures size / m.P + 1 <= |m.tables[t].pages|
    ensures Reduced(m, t, size).tables[t].pages == m.tables[t].pages[..size / m.P + 1]
  {
    hide Frames, Taken;
    DropFits(m, t, size);
    TableFramesTaken(m, t);
    var n := CeilDiv(|m.tables[t].pages| * m.P - size, m.P);
    FloorBelow(|m.tables[t].pages|, size, m.P);
    DroppedShape(m.bits, m.tables[t], n);
    DroppedTaken(m.bits, m.tables[t], n);
    var d := Dropped(m.bits, m.tables[t], n);
    ChangedTableGood(m, d.0, m.mem, t, d.1);
  }

  lemma FloorBelow(k: nat, s: nat, P: nat)
    requires P > 0 && s < k * P
    ensures s / P < k
  {
    assert s == P * (s / P) + s % P;
    assert k * P == P * k;
    LessByFactor(P, s / P, k);
  }

  lemma LessByFactor(P: nat, a: nat, b: nat)
    requires P * a < P * b
    ensures a < b
  {
    if a >= b {
      MulMonotone(P, b, a);
    }
  }

  /** Every resize keeps the ownership of frames. */
  lemma ResizeKeeps(m: Memory, pid: int, size: nat)
    requires Good(m) && Resizable(m, pid, size)
    ensures Good(Resize(m, pid, size).0)
  {
    hide Good, Created, Enlarged, Reduced, FreeFrames, CeilDiv;
    GoodSized(m);
    var t := TableOf(m.tables, pid);
    if t == -1 {
      CreatedGood(m, pid, size);
    } else {
      var current := |m.tables[t].pages| * m.P;
      if size < current {
        ReducedGood(m, t, size);
      } else if size > current && |FreeFrames(m.bits)| >= CeilDiv(size - current, m.P) {
        EnlargedGood(m, t, size - current);
      }
    }
  }

  lemma GoodSized(m: Memory)
    requires Good(m)
    ensures Sized(m.P, m.bits, m.mem)
  {
  }

  // ----- runs -----

  datatype Request = Request(pid: int, size: nat)

  /** A process without a table asks for more than zero bytes; nothing else is demanded of a resize. */
  predicate Servable(m: Memory, r: Request) {
    TableOf(m.tables, r.pid) == -1 ==> r.size > 0
  }

  /** Under the invariant every such resize is defined, and keeps it. */
  lemma ServedGood(m: Memory, r: Request)
    requires Good(m) && Servable(m, r)
    ensures Resizable(m, r.pid, r.size) && Good(Resize(m, r.pid, r.size).0)
  {
    hide Good, Resize;
    GoodSized(m);
    forall t | 0 <= t < |m.tables|
      ensures forall i :: 0 <= i < |m.tables[t].pages| ==> 0 <= m.tables[t].pages[i].frame < |m.bits|
    {
      TableFramesTaken(m, t);
    }
    ResizeKeeps(m, r.pid, r.size);
  }

  /** Resizes of any processes in any order. */
  ghost predicate ServableRun(m: Memory, rs: seq<Request>)
    requires Good(m)
    decreases |rs|
  {
    |rs| == 0 || (
      && Servable(m, rs[0])
      && (ServedGood(m, rs[0]);
          ServableRun(Resize(m, rs[0].pid, rs[0].size).0, rs[1..])))
  }

  ghost function Run(m: Memory, rs: seq<Request>): (r: Memory)
    requires Good(m) && ServableRun(m, rs)
    decreases |rs|
  {
    if |rs| == 0 then m
    else
      ServedGood(m, rs[0]);
      Run(Resize(m, rs[0].pid, rs[0].size).0, rs[1..])
  }

  lemma {:induction false} RunKeeps(m: Memory, rs: seq<Request>)
    requires Good(m) && ServableRun(m, rs)
    ensures Good(Run(m, rs))
    decreases |rs|
  {
    hide Good, Resize, Resizable;
    if |rs| > 0 {
      ServedGood(m, rs[0]);
      RunKeeps(Resize(m, rs[0].pid, rs[0].size).0, rs[1..]);
    }
  }

  // ----- outcomes -----

  /**
   What a resize of a process with a table does. It fails exactly when the enlargement wants more frames
   than are free, and then nothing changes. Otherwise an enlargement leaves the ceiling of the size in
   pages and a reduction one page more than the floor.
   */
  lemma ResizeExisting(m: Memory, pid: int, size: nat)
    requires Good(m) && Resizable(m, pid, size) && TableOf(m.tables, pid) != -1
    ensures var t, r := TableOf(m.tables, pid), Resize(m, pid, size);
            var current := |m.tables[t].pages| * m.P;
            && |r.0.tables| == |m.tables|
            && (r.1 == 0 <==> size > current && |FreeFrames(m.bits)| < CeilDiv(size - current, m.P))
            && (r.1 == 0 ==> r.0 == m)
            && (r.1 != 0 ==> |r.0.tables[t].pages| == if size >= current then CeilDiv(size, m.P) else size / m.P + 1)
  {
    hide Good, Created, Enlarged, Reduced, FreeFrames, CeilDiv;
    GoodSized(m);
    var t := TableOf(m.tables, pid);
    var k := |m.tables[t].pages|;
    var current := k * m.P;
    if size == current {
      CeilOfMultiple(k, m.P);
    } else if size < current {
      ReducedGood(m, t, size);
      ReducedShape(m, t, size);
    } else {
      CeilAbove(k, size, m.P);
      EnlargedShape(m, t, size - current);
      if |FreeFrames(m.bits)| >= CeilDiv(size - current, m.P) {
        DiffPositive(size - current, m.P);
        EnlargedGood(m, t, size - current);
      }
    }
  }

  lemma DiffPositive(n: nat, P: nat)
    requires P > 0 && n > 0
    ensures CeilDiv(n, P) > 0
  {
    WantedIsCeil(P, n);
  }

  lemma ReducedShape(m: Memory, t: nat, size: nat)
    requires Sized(m.P, m.bits, m.mem) && t < |m.tables| && size < |m.tables[t].pages| * m.P
    requires forall i :: 0 <= i < |m.tables[t].pages| ==> 0 <= m.tables[t].pages[i].frame < |m.bits|
    ensures Reduced(m, t, size).mem == m.mem && Reduced(m, t, size).P == m.P
    ensures |Reduced(m, t, size).tables| == |m.tables|
    ensures forall u :: 0 <= u < |m.tables| && u != t ==> Reduced(m, t, size).tables[u] == m.tables[u]
  {
  }

  lemma EnlargedShape(m: Memory, t: nat, diff: nat)
    requires Sized(m.P, m.bits, m.mem) && t < |m.tables|
    ensures Enlarged(m, t, diff).P == m.P && |Enlarged(m, t, diff).tables| == |m.tables|
    ensures forall u :: 0 <= u < |m.tables| && u != t ==> Enlarged(m, t, diff).tables[u] == m.tables[u]
    ensures m.tables[t].pages <= Enlarged(m, t, diff).tables[t].pages
  {
    hide Save;
  }

  /** Exactly when a successful resize leaves as many pages as the size needs. */
  lemma ResizeExactIff(m: Memory, pid: int, size: nat)
    requires Good(m) && Resizable(m, pid, size) && TableOf(m.tables, pid) != -1
    requires Resize(m, pid, size).1 != 0
    ensures var t := TableOf(m.tables, pid);
            |Resize(m, pid, size).0.tables| == |m.tables|
            && (|Resize(m, pid, size).0.tables[t].pages| == CeilDiv(size, m.P)
                <==> size >= |m.tables[t].pages| * m.P || size % m.P != 0)
  {
    hide Resize, Good, CeilDiv, Resizable;
    GoodSized(m);
    ResizeExisting(m, pid, size);
    FloorBounds(size, m.P);
  }

  /** After a successful resize the pages cover the size, with at most one page to spare. */
  lemma ResizeCapacity(m: Memory, pid: int, size: nat)
    requires Good(m) && Resizable(m, pid, size) && TableOf(m.tables, pid) != -1
    requires Resize(m, pid, size).1 != 0
    ensures var t := TableOf(m.tables, pid);
            |Resize(m, pid, size).0.tables| == |m.tables|
            && size <= |Resize(m, pid, size).0.tables[t].pages| * m.P <= size + m.P
  {
    hide Resize, Good, CeilDiv, Resizable;
    GoodSized(m);
    ResizeExisting(m, pid, size);
    FloorBounds(size, m.P);
    CeilCovers(size, m.P);
  }

  /**
   Creation always reports success; the process has a table afterwards exactly when the free frames
   suffice, and nothing changes otherwise.
   */
  lemma ResizeFresh(m: Memory, pid: int, size: nat)
    requires Good(m) && Resizable(m, pid, size) && TableOf(m.tables, pid) == -1
    ensures var r := Resize(m, pid, size);
            && r.1 == 1
            && (TableOf(r.0.tables, pid) != -1 <==> CeilDiv(size, m.P) <= |FreeFrames(m.bits)|)
            && (TableOf(r.0.tables, pid) == -1 ==> r.0 == m)
            && (TableOf(r.0.tables, pid) != -1 ==>
                  |r.0.tables[TableOf(r.0.tables, pid)].pages| == CeilDiv(size, m.P))
  {
    hide Good, FreeFrames, CeilDiv, TableOf;
    GoodSized(m);
    CreatedGood(m, pid, size);
    TableOfMeans(m.tables, pid);
    TableOfMeans(Resize(m, pid, size).0.tables, pid);
    ResizeKeeps(m, pid, size);
    if CeilDiv(size, m.P) <= |FreeFrames(m.bits)| {
      OnlyTable(Resize(m, pid, size).0, pid, |m.tables|);
    }
  }

  lemma TableOfMeans(tables: seq<Table>, pid: int)
    ensures TableOf(tables, pid) == -1 <==> forall u :: 0 <= u < |tables| ==> tables[u].pid != pid
    ensures TableOf(tables, pid) != -1 ==> 0 <= TableOf(tables, pid) < |tables| && tables[TableOf(tables, pid)].pid == pid
  {
  }

  lemma OnlyTable(m: Memory, pid: int, t: nat)
    requires Good(m) && t < |m.tables| && m.tables[t].pid == pid
    ensures TableOf(m.tables, pid) == t
  {
    TableOfMeans(m.tables, pid);
  }

  // ----- contents -----

  /** The page of table `t` at place `i` is on the same frame, with the same bytes. */
  ghost predicate SamePage(m: Memory, r: Memory, t: nat, i: nat)
    requires t < |m.tables| && i < |m.tables[t].pages|
  {
    && t < |r.tables| && i < |r.tables[t].pages| && r.P == m.P
    && r.tables[t].pages[i].frame == m.tables[t].pages[i].frame >= 0
    && var f := m.tables[t].pages[i].frame;
       f * m.P + m.P <= |m.mem| && f * m.P + m.P <= |r.mem| && FrameBytes(m.P, r.mem, f) == FrameBytes(m.P, m.mem, f)
  }

  lemma SavedPage(m: Memory, nextId: int, data: seq<byte>, t: nat, i: nat)
    requires Good(m) && t < |m.tables| && i < |m.tables[t].pages|
    ensures var f, a := m.tables[t].pages[i].frame, Save(m.P, m.bits, m.mem, nextId, data);
            f >= 0 && f * m.P + m.P <= |m.mem| && f * m.P + m.P <= |a.mem|
            && FrameBytes(m.P, a.mem, f) == FrameBytes(m.P, m.mem, f)
  {
    hide Save, FrameBytes;
    FramesDistinct(m, t, i, t, i);
    SaveKeepsTaken(m.P, m.bits, m.mem, nextId, data, m.tables[t].pages[i].frame);
  }

  /**
   Every page that survives a resize keeps its frame and its bytes: every page of another process, and the
   pages of this one below the new number of pages.
   */
  lemma ResizeKeepsPages(m: Memory, pid: int, size: nat, t: nat, i: nat)
    requires Good(m) && Resizable(m, pid, size)
    requires t < |m.tables| && i < |m.tables[t].pages|
    requires t == TableOf(m.tables, pid) && size < |m.tables[t].pages| * m.P ==> i < size / m.P + 1
    ensures SamePage(m, Resize(m, pid, size).0, t, i)
  {
    hide Save, Good, FrameBytes, FreeFrames, CeilDiv, Reduced;
    GoodSized(m);
    var u := TableOf(m.tables, pid);
    SavedPage(m, 0, [], t, i);
    if u == -1 {
      SavedPage(m, m.idGlobal, Stars(CeilDiv(size, m.P) * m.P), t, i);
    } else {
      var current := |m.tables[u].pages| * m.P;
      if size < current {
        ReducedGood(m, u, size);
        ReducedShape(m, u, size);
      } else if size > current {
        SavedPage(m, m.tables[u].lastUsedPageID, Stars(size - current), t, i);
      }
    }
  }
}
