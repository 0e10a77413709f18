/**
 Paged memory as a value: the frame bitmap, main memory, and one page table per process. The class
 MemoryModule.Memory carries the operations out in place and is proved against these functions.
 */
module Paging {
  import opened CTypes
  import opened BitStrings

  /** A page: its id, its frame (frame_ppal) and the bytes its allocation left over (tamanioDisponible). */
  datatype Page = Page(id: int, frame: int, spare: int)

  datatype Table = Table(pid: int, pages: seq<Page>, lastUsedPageID: int)

  datatype Memory = Memory(P: nat, bits: seq<bool>, mem: seq<byte>, tables: seq<Table>, idGlobal: int)

  // ----- free frames -----

  /** The free frames in ascending order. */
  function FreeFrames(bits: seq<bool>): (r: seq<nat>)
    ensures forall i :: 0 <= i < |r| ==> r[i] < |bits| && !bits[r[i]]
    ensures forall i, j :: 0 <= i < j < |r| ==> r[i] < r[j]
    ensures forall f :: 0 <= f < |bits| && !bits[f] ==> f in r
  {
    if |bits| == 0 then []
    else
      var n := |bits| - 1;
      var front := FreeFrames(bits[..n]);
      if bits[n] then front else front + [n]
  }

  /** Taking the lowest free frame leaves the others, in order. */
  lemma {:induction false} TakeLowest(bits: seq<bool>)
    requires FreeFrames(bits) != []
    ensures FreeFrames(bits[FreeFrames(bits)[0] := true]) == FreeFrames(bits)[1..]
  {
    var n := |bits| - 1;
    var f := FreeFrames(bits)[0];
    var after := bits[f := true];
    if f == n {
      FreeFramesSame(after[..n], bits[..n]);
    } else {
      assert FreeFrames(bits[..n]) != [];
      TakeLowest(bits[..n]);
      assert after[..n] == bits[..n][f := true];
    }
  }

  lemma FreeFramesSame(a: seq<bool>, b: seq<bool>)
    requires a == b
    ensures FreeFrames(a) == FreeFrames(b)
  {
  }

  // ----- allocation -----

  /** What an allocation leaves: bitmap, memory, the next page id, and the pages it made. */
  datatype Allocation = Allocation(bits: seq<bool>, mem: seq<byte>, nextId: int, pages: seq<Page>)

  predicate Sized(P: nat, bits: seq<bool>, mem: seq<byte>) {
    P > 0 && |mem| == |bits| * P
  }

  lemma FrameInRange(P: nat, n: nat, f: nat)
    requires f < n
    ensures f * P + P <= n * P
  {
    MulMonotone(P, f + 1, n);
  }

  /**
   Recursive allocation: one page on the lowest free frame for what fits a page, otherwise a full page
   and then the rest. With no free frame it returns no page.
   */
  function Save(P: nat, bits: seq<bool>, mem: seq<byte>, nextId: int, data: seq<byte>): (a: Allocation)
    requires Sized(P, bits, mem)
    ensures |a.bits| == |bits| && |a.mem| == |mem|
    decreases |data|
  {
    var free := FreeFrames(bits);
    if |free| == 0 then Allocation(bits, mem, nextId, [])
    else if |data| <= P then
      var f := free[0];
      FrameInRange(P, |bits|, f);
      Allocation(bits[f := true], Overlay(mem, f * P, data), nextId + 1, [Page(nextId, f, P - |data|)])
    else
      var first := Save(P, bits, mem, nextId, data[..P]);
      var rest := Save(P, first.bits, first.mem, first.nextId, data[P..]);
      rest.(pages := first.pages + rest.pages)
  }

  /** Pages the allocation tries to make. */
  function Wanted(P: nat, n: nat): (k: nat)
    requires P > 0
    ensures k >= 1
    decreases n
  {
    if n <= P then 1 else 1 + Wanted(P, n - P)
  }

  function CeilDiv(n: nat, P: nat): (k: nat)
    requires P > 0
  {
    (n + P - 1) / P
  }

  lemma {:induction false} WantedIsCeil(P: nat, n: nat)
    requires P > 0 && n > 0
    ensures Wanted(P, n) == CeilDiv(n, P)
    decreases n
  {
    if n <= P {
      DivisionIsUnique(n + P - 1, P, 1, n - 1);
    } else {
      WantedIsCeil(P, n - P);
      CeilStep(n, P);
    }
  }

  lemma CeilStep(n: nat, P: nat)
    requires 0 < P < n
    ensures CeilDiv(n, P) == 1 + CeilDiv(n - P, P)
  {
    var r, left := (n - 1) / P, (n - 1) % P;
    assert n - 1 == P * r + left;
    assert P * (r + 1) == P * r + P;
    DivisionIsUnique(n + P - 1, P, r + 1, left);
  }

  /** Pages with consecutive ids on the first frames of `free`. */
  ghost predicate OnFirst(pages: seq<Page>, nextId: int, free: seq<nat>) {
    |pages| <= |free|
    && forall j :: 0 <= j < |pages| ==> pages[j].frame == free[j] && pages[j].id == nextId + j
  }

  lemma OnFirstConcat(a: seq<Page>, b: seq<Page>, nextId: int, free: seq<nat>)
    requires OnFirst(a, nextId, free) && OnFirst(b, nextId + |a|, free[|a|..])
    ensures OnFirst(a + b, nextId, free) && free[|a|..][|b|..] == free[|a + b|..]
  {
  }

  /**
   What the recursion takes, without its recursion: the lowest free frames in ascending order, as many as
   the data wants or as there are; the pages get consecutive ids.
   */
  lemma {:induction false} SaveTakesLowest(P: nat, bits: seq<bool>, mem: seq<byte>, nextId: int, data: seq<byte>)
    requires Sized(P, bits, mem)
    ensures var a, free := Save(P, bits, mem, nextId, data), FreeFrames(bits);
            && |a.pages| == Min(Wanted(P, |data|), |free|)
            && a.nextId == nextId + |a.pages|
            && OnFirst(a.pages, nextId, free)
            && FreeFrames(a.bits) == free[|a.pages|..]
    decreases |data|
  {
    hide Overlay, FreeFrames, OnFirst;
    var free := FreeFrames(bits);
    if |free| == 0 {
      OnFirstNone(nextId, free);
    } else if |data| <= P {
      TakeLowest(bits);
      OnFirstOne(nextId, free, P - |data|);
    } else {
      SaveTakesLowest(P, bits, mem, nextId, data[..P]);
      var first := Save(P, bits, mem, nextId, data[..P]);
      SaveTakesLowest(P, first.bits, first.mem, first.nextId, data[P..]);
      var rest := Save(P, first.bits, first.mem, first.nextId, data[P..]);
      assert Wanted(P, P) == 1;
      OnFirstConcat(first.pages, rest.pages, nextId, free);
    }
  }

  lemma OnFirstNone(nextId: int, free: seq<nat>)
    ensures OnFirst([], nextId, free)
  {
  }

  lemma OnFirstOne(nextId: int, free: seq<nat>, spare: int)
    requires free != []
    ensures OnFirst([Page(nextId, free[0], spare)], nextId, free)
  {
  }

  /** The bitmap after an allocation: the bits of the new pages are set, and nothing else changes. */
  lemma {:induction false} SaveBits(P: nat, bits: seq<bool>, mem: seq<byte>, nextId: int, data: seq<byte>, f: nat)
    requires Sized(P, bits, mem) && f < |bits|
    ensures var a := Save(P, bits, mem, nextId, data);
            a.bits[f] <==> bits[f] || exists j :: 0 <= j < |a.pages| && a.pages[j].frame == f
    decreases |data|
  {
    var free := FreeFrames(bits);
    if |free| > 0 && |data| <= P {
      var a := Save(P, bits, mem, nextId, data);
      assert a.pages[0].frame == free[0];
    } else if |free| > 0 {
      var first := Save(P, bits, mem, nextId, data[..P]);
      SaveBits(P, bits, mem, nextId, data[..P], f);
      SaveBits(P, first.bits, first.mem, first.nextId, data[P..], f);
      var rest := Save(P, first.bits, first.mem, first.nextId, data[P..]);
      PagesOfBoth(first.pages, rest.pages, f);
    }
  }

  lemma PagesOfBoth(a: seq<Page>, b: seq<Page>, f: int)
    ensures (exists j :: 0 <= j < |a + b| && (a + b)[j].frame == f)
        <==> (exists j :: 0 <= j < |a| && a[j].frame == f) || (exists j :: 0 <= j < |b| && b[j].frame == f)
  {
    if j :| 0 <= j < |a| && a[j].frame == f {
      assert (a + b)[j].frame == f;
    }
    if j :| 0 <= j < |b| && b[j].frame == f {
      assert (a + b)[|a| + j].frame == f;
    }
  }

  /** The bytes of frame `f`. */
  function FrameBytes(P: nat, mem: seq<byte>, f: nat): (b: seq<byte>)
    requires f * P + P <= |mem|
    ensures |b| == P
  {
    mem[f * P..f * P + P]
  }

  lemma FramesApart(P: nat, f: nat, g: nat)
    requires f != g
    ensures f * P + P <= g * P || g * P + P <= f * P
  {
    if f < g {
      FrameInRange(P, g, f);
    } else {
      FrameInRange(P, f, g);
    }
  }

  lemma OverlayOtherFrame(P: nat, mem: seq<byte>, f: nat, g: nat, off: nat, data: seq<byte>)
    requires f != g && off + |data| <= P && f * P + P <= |mem| && g * P + P <= |mem|
    ensures FrameBytes(P, Overlay(mem, f * P + off, data), g) == FrameBytes(P, mem, g)
  {
    hide Overlay;
    FramesApart(P, f, g);
    OverlayFrame(mem, f * P + off, data, g * P, g * P + P);
  }

  /** An allocation writes free frames only: the bytes of every taken frame stay. */
  lemma {:induction false} SaveKeepsTaken(P: nat, bits: seq<bool>, mem: seq<byte>, nextId: int, data: seq<byte>, f: nat)
    requires Sized(P, bits, mem) && f < |bits| && bits[f]
    ensures f * P + P <= |mem|
    ensures FrameBytes(P, Save(P, bits, mem, nextId, data).mem, f) == FrameBytes(P, mem, f)
    decreases |data|
  {
    FrameInRange(P, |bits|, f);
    var free := FreeFrames(bits);
    if |free| > 0 && |data| <= P {
      FrameInRange(P, |bits|, free[0]);
      OverlayOtherFrame(P, mem, free[0], f, 0, data);
    } else if |free| > 0 {
      SaveKeepsTaken(P, bits, mem, nextId, data[..P], f);
      var first := Save(P, bits, mem, nextId, data[..P]);
      SaveBits(P, bits, mem, nextId, data[..P], f);
      SaveKeepsTaken(P, first.bits, first.mem, first.nextId, data[P..], f);
    }
  }
}
