/**
 Resizing processes: creation of a page table, enlargement by recursive allocation, reduction from the
 end, and the ownership of frames that every sequence of resizes keeps.
 */
module Resizing {
  import opened BitStrings
  import opened Paging

  // ----- who owns which frame -----

  /** Frames of a list of pages, with multiplicity. */
  ghost function Frames(pages: seq<Page>): (r: multiset<int>)
    ensures |r| == |pages|
  {
    if |pages| == 0 then multiset{}
    else Frames(pages[..|pages| - 1]) + multiset{pages[|pages| - 1].frame}
  }

  ghost function AllFrames(tables: seq<Table>): (r: multiset<int>) {
    if |tables| == 0 then multiset{}
    else AllFrames(tables[..|tables| - 1]) + Frames(tables[|tables| - 1].pages)
  }

  /** The frames marked in the bitmap. */
  ghost function Taken(bits: seq<bool>): (r: multiset<int>)
    ensures forall f :: r[f] == if 0 <= f < |bits| && bits[f] then 1 else 0
  {
    if |bits| == 0 then multiset{}
    else Taken(bits[..|bits| - 1]) + (if bits[|bits| - 1] then multiset{|bits| - 1} else multiset{})
  }

  lemma FramesLast(pages: seq<Page>)
    requires |pages| > 0
    ensures Frames(pages) == Frames(pages[..|pages| - 1]) + multiset{pages[|pages| - 1].frame}
  {
  }

  lemma Grouped(a: multiset<int>, b: multiset<int>, c: multiset<int>)
    ensures a + b + c == a + (b + c)
  {
  }

  lemma {:induction false} FramesConcat(a: seq<Page>, b: seq<Page>)
    ensures Frames(a + b) == Frames(a) + Frames(b)
    decreases |b|
  {
    if |b| == 0 {
      assert a + b == a;
    } else {
      hide Frames;
      var ab, rest, last := a + b, b[..|b| - 1], multiset{b[|b| - 1].frame};
      FramesConcat(a, rest);
      FramesLast(ab);
      FramesLast(b);
      assert ab[..|ab| - 1] == a + rest;
      Grouped(Frames(a), Frames(rest), last);
    }
  }

  lemma AddToBoth(a: multiset<int>, b: multiset<int>, l: multiset<int>, t: multiset<int>, x: multiset<int>)
    requires a + t == b + x
    ensures a + l + t == b + l + x
  {
    var p, q := a + l + t, b + l + x;
    forall g
      ensures p[g] == q[g]
    {
      assert (a + t)[g] == (b + x)[g];
    }
  }

  lemma {:induction false} AllFramesChange(tables: seq<Table>, t: nat, x: Table)
    requires t < |tables|
    ensures AllFrames(tables[t := x]) + Frames(tables[t].pages) == AllFrames(tables) + Frames(x.pages)
  {
    hide Frames;
    var n := |tables| - 1;
    var after := tables[t := x];
    assert AllFrames(after) == AllFrames(after[..n]) + Frames(after[n].pages);
    assert AllFrames(tables) == AllFrames(tables[..n]) + Frames(tables[n].pages);
    if t < n {
      AllFramesChange(tables[..n], t, x);
      AddToBoth(AllFrames(after[..n]), AllFrames(tables[..n]), Frames(tables[n].pages), Frames(tables[t].pages), Frames(x.pages));
      assert after[..n] == tables[..n][t := x];
    } else {
      assert after[..n] == tables[..n];
    }
  }

  lemma {:induction false} FramesHas(pages: seq<Page>, i: nat)
    requires i < |pages|
    ensures Frames(pages)[pages[i].frame] >= 1
  {
    if i < |pages| - 1 {
      FramesHas(pages[..|pages| - 1], i);
    }
  }

  lemma {:induction false} AllFramesHas(tables: seq<Table>, t: nat, f: int)
    requires t < |tables|
    ensures AllFrames(tables)[f] >= Frames(tables[t].pages)[f]
  {
    if t < |tables| - 1 {
      AllFramesHas(tables[..|tables| - 1], t, f);
    }
  }

  lemma {:induction false} FramesTwice(pages: seq<Page>, i: nat, j: nat)
    requires i < j < |pages| && pages[i].frame == pages[j].frame
    ensures Frames(pages)[pages[i].frame] >= 2
  {
    if j < |pages| - 1 {
      FramesTwice(pages[..|pages| - 1], i, j);
    } else {
      FramesHas(pages[..|pages| - 1], i);
    }
  }

  lemma {:induction false} AllFramesTwice(tables: seq<Table>, t: nat, u: nat, f: int)
    requires t < u < |tables|
    ensures AllFrames(tables)[f] >= Frames(tables[t].pages)[f] + Frames(tables[u].pages)[f]
  {
    if u < |tables| - 1 {
      AllFramesTwice(tables[..|tables| - 1], t, u, f);
    } else {
      AllFramesHas(tables[..|tables| - 1], t, f);
    }
  }

  // ----- the invariant -----

  predicate Numbered(t: Table) {
    && t.lastUsedPageID == |t.pages|
    && |t.pages| > 0
    && forall i :: 0 <= i < |t.pages| ==> t.pages[i].id == i
  }

  /**
   A frame is marked exactly as often as pages lie on it, so once; pids are distinct; pages are numbered
   from 0; and the global counter of ids is back at 0.
   */
  ghost predicate Good(m: Memory) {
    && Sized(m.P, m.bits, m.mem)
    && AllFrames(m.tables) == Taken(m.bits)
    && (forall t, u :: 0 <= t < u < |m.tables| ==> m.tables[t].pid != m.tables[u].pid)
    && (forall t :: 0 <= t < |m.tables| ==> Numbered(m.tables[t]))
    && m.idGlobal == 0
  }

  /** No two pages, of one process or of two, share a frame; every page lies on a marked frame. */
  lemma FramesDistinct(m: Memory, t: nat, i: nat, u: nat, j: nat)
    requires Good(m)
    requires t < |m.tables| && i < |m.tables[t].pages| && u < |m.tables| && j < |m.tables[u].pages|
    ensures m.tables[t].pages[i].frame == m.tables[u].pages[j].frame ==> t == u && i == j
    ensures 0 <= m.tables[t].pages[i].frame < |m.bits| && m.bits[m.tables[t].pages[i].frame]
  {
    var f := m.tables[t].pages[i].frame;
    FramesHas(m.tables[t].pages, i);
    AllFramesHas(m.tables, t, f);
    assert Taken(m.bits)[f] >= 1;
    if f == m.tables[u].pages[j].frame {
      FramesHas(m.tables[u].pages, j);
      if t < u {
        AllFramesTwice(m.tables, t, u, f);
      } else if u < t {
        AllFramesTwice(m.tables, u, t, f);
      } else if i < j {
        FramesTwice(m.tables[t].pages, i, j);
      } else if j < i {
        FramesTwice(m.tables[t].pages, j, i);
      }
    }
  }

  function TotalPages(tables: seq<Table>): (n: nat) {
    if |tables| == 0 then 0 else TotalPages(tables[..|tables| - 1]) + |tables[|tables| - 1].pages|
  }

  lemma {:induction false} TotalIsCount(tables: seq<Table>)
    ensures |AllFrames(tables)| == TotalPages(tables)
  {
    if |tables| > 0 {
      TotalIsCount(tables[..|tables| - 1]);
    }
  }

  lemma {:induction false} TakenAndFree(bits: seq<bool>)
    ensures |Taken(bits)| + |FreeFrames(bits)| == |bits|
  {
    if |bits| > 0 {
      TakenAndFree(bits[..|bits| - 1]);
    }
  }

  /** Frames are conserved: pages of all processes and free frames make the whole memory. */
  lemma FramesConserved(m: Memory)
    requires Good(m)
    ensures TotalPages(m.tables) + |FreeFrames(m.bits)| == |m.bits|
  {
    TotalIsCount(m.tables);
    TakenAndFree(m.bits);
  }

  // ----- marking -----

  lemma TakenSet(bits: seq<bool>, f: nat)
    requires f < |bits| && !bits[f]
    ensures Taken(bits[f := true]) == Taken(bits) + multiset{f}
  {
    var a, b := Taken(bits[f := true]), Taken(bits) + multiset{f};
    assert forall g :: a[g] == b[g];
  }

  lemma TakenClear(bits: seq<bool>, f: nat)
    requires f < |bits| && bits[f]
    ensures Taken(bits[f := false]) + multiset{f} == Taken(bits)
  {
    var a, b := Taken(bits[f := false]) + multiset{f}, Taken(bits);
    assert forall g :: a[g] == b[g];
  }

  lemma {:induction false} SaveTaken(P: nat, bits: seq<bool>, mem: seq<byte>, nextId: int, data: seq<byte>)
    requires Sized(P, bits, mem)
    ensures var a := Save(P, bits, mem, nextId, data); Taken(a.bits) == Taken(bits) + Frames(a.pages)
    decreases |data|
  {
    hide Overlay, Taken;
    var free := FreeFrames(bits);
    if |free| > 0 && |data| <= P {
      TakenSet(bits, free[0]);
      FramesOfOne(Page(nextId, free[0], P - |data|));
    } else if |free| > 0 {
      SaveTaken(P, bits, mem, nextId, data[..P]);
      var first := Save(P, bits, mem, nextId, data[..P]);
      SaveTaken(P, first.bits, first.mem, first.nextId, data[P..]);
      FramesConcat(first.pages, Save(P, first.bits, first.mem, first.nextId, data[P..]).pages);
    }
  }

  lemma FramesOfOne(p: Page)
    ensures Frames([p]) == multiset{p.frame}
  {
    assert [p][..0] == [];
  }

  // ----- the operations -----

  /** The place of the process's table in the list of tables, or -1. */
  function TableOf(tables: seq<Table>, pid: int): (t: int)
    ensures t == -1 ==> forall u :: 0 <= u < |tables| ==> tables[u].pid != pid
    ensures t != -1 ==> 0 <= t < |tables| && tables[t].pid == pid && forall u :: 0 <= u < t ==> tables[u].pid != pid
  {
    if |tables| == 0 then -1
    else if tables[0].pid == pid then 0
    else
      var t := TableOf(tables[1..], pid);
      assert forall u :: 1 <= u < |tables| ==> tables[u] == tables[1..][u - 1];
      if t == -1 then -1 else t + 1
  }

  const STAR: byte := 42

  function Stars(n: nat): (s: seq<byte>)
    ensures |s| == n
  {
    seq(n, i => STAR)
  }

  /** Pages dropped from the end and their frames freed; one page fewer than the number given. */
  function Dropped(bits: seq<bool>, t: Table, n: nat): (r: (seq<bool>, Table))
    requires n <= |t.pages|
    requires forall i :: 0 <= i < |t.pages| ==> 0 <= t.pages[i].frame < |bits|
    ensures |r.0| == |bits|
    decreases n
  {
    if n <= 1 then (bits, t)
    else
      var last := |t.pages| - 1;
      Dropped(bits[t.pages[last].frame := false],
              t.(pages := t.pages[..last], lastUsedPageID := t.lastUsedPageID - 1), n - 1)
  }

  /** What a resize demands: a size, and more than zero bytes for a process without a table. */
  predicate Resizable(m: Memory, pid: int, size: nat) {
    Sized(m.P, m.bits, m.mem) && (TableOf(m.tables, pid) == -1 ==> size > 0)
    && forall t, i :: 0 <= t < |m.tables| && 0 <= i < |m.tables[t].pages| ==>
         0 <= m.tables[t].pages[i].frame < |m.bits|
  }

  /** A new table for as many pages as the size needs, if there is room; the outcome is reported as 1 anyway. */
  function Created(m: Memory, pid: int, size: nat): (r: Memory)
    requires Sized(m.P, m.bits, m.mem)
  {
    var need := CeilDiv(size, m.P);
    if |FreeFrames(m.bits)| < need then m
    else
      var a := Save(m.P, m.bits, m.mem, m.idGlobal, Stars(need * m.P));
      m.(bits := a.bits, mem := a.mem, tables := m.tables + [Table(pid, a.pages, |a.pages|)],
         idGlobal := a.nextId - |a.pages|)
  }

  function Enlarged(m: Memory, t: nat, diff: nat): (r: Memory)
    requires Sized(m.P, m.bits, m.mem) && t < |m.tables|
  {
    var table := m.tables[t];
    var a := Save(m.P, m.bits, m.mem, table.lastUsedPageID, Stars(diff));
    m.(bits := a.bits, mem := a.mem,
       tables := m.tables[t := Table(table.pid, table.pages + a.pages, a.nextId)])
  }

  lemma CeilOfPart(k: nat, s: nat, P: nat)
    requires P > 0 && s < k * P
    ensures CeilDiv(k * P - s, P) == k - s / P
  {
    var q, r := s / P, s % P;
    assert s == P * q + r;
    assert k * P - s + P - 1 == P * (k - q) + (P - 1 - r);
    DivisionIsUnique(k * P - s + P - 1, P, k - q, P - 1 - r);
  }

  lemma DropFits(m: Memory, t: nat, size: nat)
    requires Sized(m.P, m.bits, m.mem) && t < |m.tables| && size < |m.tables[t].pages| * m.P
    ensures CeilDiv(|m.tables[t].pages| * m.P - size, m.P) == |m.tables[t].pages| - size / m.P <= |m.tables[t].pages|
  {
    CeilOfPart(|m.tables[t].pages|, size, m.P);
  }

  function Reduced(m: Memory, t: nat, size: nat): (r: Memory)
    requires Sized(m.P, m.bits, m.mem) && t < |m.tables| && size < |m.tables[t].pages| * m.P
    requires forall i :: 0 <= i < |m.tables[t].pages| ==> 0 <= m.tables[t].pages[i].frame < |m.bits|
  {
    DropFits(m, t, size);
    var n := CeilDiv(|m.tables[t].pages| * m.P - size, m.P);
    var d := Dropped(m.bits, m.tables[t], n);
    m.(bits := d.0, tables := m.tables[t := d.1])
  }

  /** A resize and the value it reports. */
  function Resize(m: Memory, pid: int, size: nat): (r: (Memory, int))
    requires Resizable(m, pid, size)
  {
    var t := TableOf(m.tables, pid);
    if t == -1 then (Created(m, pid, size), 1)
    else
      var current := |m.tables[t].pages| * m.P;
      if size == current then (m, 1)
      else if size < current then (Reduced(m, t, size), 1)
      else if |FreeFrames(m.bits)| >= CeilDiv(size - current, m.P) then (Enlarged(m, t, size - current), 1)
      else (m, 0)
  }
}
