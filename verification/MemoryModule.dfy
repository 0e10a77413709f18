/**
 The memory module in place: the frame bitmap, main memory, the list of page tables and the id counter.
 */
module MemoryModule {
  import opened CTypes
  import opened BitStrings
  import opened Paging
  import opened Resizing
  import opened ResizeProof
  import opened FlatMemory
  import opened FlatWrites

  // ----- the recursion of the allocation, with the counter it advances -----

  function NextId(m: Memory, pid: int): (id: int) {
    var t := TableOf(m.tables, pid);
    if t == -1 then m.idGlobal else m.tables[t].lastUsedPageID
  }

  function WithNextId(m: Memory, pid: int, id: int): (r: Memory) {
    var t := TableOf(m.tables, pid);
    if t == -1 then m.(idGlobal := id)
    else m.(tables := m.tables[t := m.tables[t].(lastUsedPageID := id)])
  }

  /** The memory and the pages after an allocation for a process. */
  function Allocated(m: Memory, pid: int, data: seq<byte>): (r: (Memory, seq<Page>))
    requires Sized(m.P, m.bits, m.mem)
    ensures Sized(r.0.P, r.0.bits, r.0.mem)
  {
    var a := Save(m.P, m.bits, m.mem, NextId(m, pid), data);
    (WithNextId(m, pid, a.nextId).(bits := a.bits, mem := a.mem), a.pages)
  }

  lemma {:induction false} TableOfUpdate(tables: seq<Table>, t: nat, x: Table, pid: int)
    requires t < |tables| && x.pid == tables[t].pid
    ensures TableOf(tables[t := x], pid) == TableOf(tables, pid)
  {
    if t == 0 {
      assert tables[t := x][1..] == tables[1..];
    } else {
      TableOfUpdate(tables[1..], t - 1, x, pid);
      assert tables[t := x][1..] == tables[1..][t - 1 := x];
    }
  }

  lemma WithNextIdTwice(m: Memory, pid: int, a: int, b: int)
    ensures TableOf(WithNextId(m, pid, a).tables, pid) == TableOf(m.tables, pid)
    ensures NextId(WithNextId(m, pid, a), pid) == a
    ensures WithNextId(WithNextId(m, pid, a), pid, b) == WithNextId(m, pid, b)
  {
    var t := TableOf(m.tables, pid);
    if t != -1 {
      TableOfUpdate(m.tables, t, m.tables[t].(lastUsedPageID := a), pid);
    }
  }

  lemma SaveInTwo(P: nat, bits: seq<bool>, mem: seq<byte>, nextId: int, data: seq<byte>)
    requires Sized(P, bits, mem) && |data| > P && FreeFrames(bits) != []
    ensures var first := Save(P, bits, mem, nextId, data[..P]);
            var rest := Save(P, first.bits, first.mem, first.nextId, data[P..]);
            Save(P, bits, mem, nextId, data) == Allocation(rest.bits, rest.mem, rest.nextId, first.pages + rest.pages)
  {
    hide FreeFrames, Overlay;
  }

  /** An allocation that goes on from another one. */
  lemma AllocatedAfter(m: Memory, pid: int, a: Allocation, data: seq<byte>)
    requires Sized(m.P, a.bits, a.mem)
    ensures var m1 := WithNextId(m, pid, a.nextId).(bits := a.bits, mem := a.mem);
            var b := Save(m.P, a.bits, a.mem, a.nextId, data);
            m1.P == m.P && Allocated(m1, pid, data) == (WithNextId(m, pid, b.nextId).(bits := b.bits, mem := b.mem), b.pages)
  {
    hide WithNextId, NextId, Save;
    var b := Save(m.P, a.bits, a.mem, a.nextId, data);
    WithNextIdTwice(m, pid, a.nextId, b.nextId);
    NextIdKeeps(WithNextId(m, pid, a.nextId), a.bits, a.mem, pid);
    WithNextIdKeeps(m, m.bits, m.mem, pid, a.nextId);
    WithNextIdKeeps(WithNextId(m, pid, a.nextId), a.bits, a.mem, pid, b.nextId);
  }

  /** The two recursive calls of an allocation that wants more than one page. */
  lemma AllocatedInTwo(m: Memory, pid: int, data: seq<byte>)
    requires Sized(m.P, m.bits, m.mem) && |data| > m.P && FreeFrames(m.bits) != []
    ensures var first := Allocated(m, pid, data[..m.P]);
            first.0.P == m.P
            && var rest := Allocated(first.0, pid, data[m.P..]);
               Allocated(m, pid, data) == (rest.0, first.1 + rest.1)
  {
    hide WithNextId, FreeFrames, NextId, Save;
    SaveInTwo(m.P, m.bits, m.mem, NextId(m, pid), data);
    var a := Save(m.P, m.bits, m.mem, NextId(m, pid), data[..m.P]);
    AllocatedAfter(m, pid, a, data[m.P..]);
  }

  lemma NextIdKeeps(m: Memory, bits: seq<bool>, mem: seq<byte>, pid: int)
    ensures NextId(m.(bits := bits, mem := mem), pid) == NextId(m, pid)
  {
  }

  lemma WithNextIdKeeps(m: Memory, bits: seq<bool>, mem: seq<byte>, pid: int, id: int)
    ensures WithNextId(m.(bits := bits, mem := mem), pid, id) == WithNextId(m, pid, id).(bits := bits, mem := mem)
    ensures WithNextId(m, pid, id).P == m.P
  {
  }

  class MemoryServer {
    const pageLength: nat
    const bitmap: array<bool>
    const mainMemory: array<byte>
    var tables: seq<Table>
    var idGlobal: int

    constructor (frames: nat, pageLength: nat)
      requires pageLength > 0
      ensures Valid() && Good(View()) && tables == []
      ensures fresh(bitmap) && fresh(mainMemory)
    {
      this.pageLength := pageLength;
      bitmap := new bool[frames](i => false);
      mainMemory := new byte[frames * pageLength](i => 0);
      tables := [];
      idGlobal := 0;
      new;
      NothingTaken(bitmap[..]);
    }

    function View(): (m: Memory)
      reads this, bitmap, mainMemory
    {
      Memory(pageLength, bitmap[..], mainMemory[..], tables, idGlobal)
    }

    predicate Valid()
      reads this, bitmap, mainMemory
    {
      Sized(pageLength, bitmap[..], mainMemory[..])
    }

    method PageAvailability() returns (freeSpaces: nat)
      requires Valid()
      ensures freeSpaces == |FreeFrames(bitmap[..])|
    {
      freeSpaces := 0;
      for offset := 0 to bitmap.Length
        invariant freeSpaces == |FreeFrames(bitmap[..offset])|
      {
        assert bitmap[..offset + 1][..offset] == bitmap[..offset];
        if !bitmap[offset] {
          freeSpaces := freeSpaces + 1;
        }
      }
      assert bitmap[..bitmap.Length] == bitmap[..];
    }

    method FindFreeFrames() returns (freeFrames: seq<nat>)
      requires Valid()
      ensures freeFrames == FreeFrames(bitmap[..])
    {
      freeFrames := [];
      for base := 0 to bitmap.Length
        invariant freeFrames == FreeFrames(bitmap[..base])
      {
        assert bitmap[..base + 1][..base] == bitmap[..base];
        if !bitmap[base] {
          freeFrames := freeFrames + [base];
        }
      }
      assert bitmap[..bitmap.Length] == bitmap[..];
    }

    /** Copies bytes into main memory. */
    method CopyIn(base: nat, data: seq<byte>)
      requires base + |data| <= mainMemory.Length
      modifies mainMemory
      ensures mainMemory[..] == Overlay(old(mainMemory[..]), base, data)
    {
      ghost var was := mainMemory[..];
      for i := 0 to |data|
        invariant forall x {:trigger mainMemory[x]} :: 0 <= x < mainMemory.Length ==>
                    mainMemory[x] == if base <= x < base + i then data[x - base] else was[x]
      {
        mainMemory[base + i] := data[i];
      }
    }

    /** A page on `frame`; its id comes from the process's table, or from the global counter without one. */
    method PageCreate(frame: nat, spare: int, pid: int) returns (page: Page)
      modifies this
      ensures page == Page(old(NextId(View(), pid)), frame, spare)
      ensures View() == WithNextId(old(View()), pid, page.id + 1)
    {
      var t := TableOf(tables, pid);
      var id: int;
      if t != -1 {
        id := tables[t].lastUsedPageID;
        tables := tables[t := tables[t].(lastUsedPageID := id + 1)];
      } else {
        id := idGlobal;
        idGlobal := idGlobal + 1;
      }
      page := Page(id, frame, spare);
    }

    method SaveInPage(data: seq<byte>, pid: int) returns (pages: seq<Page>)
      requires Valid()
      modifies this, bitmap, mainMemory
      ensures Valid() && (View(), pages) == Allocated(old(View()), pid, data)
      decreases |data|
    {
      hide Overlay, FreeFrames, TableOf;
      var unoccupied := FindFreeFrames();
      if |unoccupied| == 0 {
        WithNextIdSame(View(), pid);
        return [];
      }
      if |data| <= pageLength {
        var frame := unoccupied[0];
        FreeInRange(bitmap[..]);
        FrameInRange(pageLength, bitmap.Length, frame);
        bitmap[frame] := true;
        CopyIn(frame * pageLength, data);
        var page := PageCreate(frame, pageLength - |data|, pid);
        WithNextIdKeeps(old(View()), bitmap[..], mainMemory[..], pid, page.id + 1);
        return [page];
      }
      AllocatedInTwo(View(), pid, data);
      var first := SaveInPage(data[..pageLength], pid);
      var rest := SaveInPage(data[pageLength..], pid);
      pages := first + rest;
    }
  
    /** Pages go from the end, one fewer than asked for, and their frames are freed. */
    method FreePagesFromTheEnd(t: nat, numberPages: nat)
      requires Valid() && t < |tables| && numberPages <= |tables[t].pages|
      requires forall i :: 0 <= i < |tables[t].pages| ==> 0 <= tables[t].pages[i].frame < bitmap.Length
      modifies this, bitmap
      ensures Valid() && mainMemory[..] == old(mainMemory[..])
      ensures View() == old(View().(bits := Dropped(bitmap[..], tables[t], numberPages).0,
                                    tables := tables[t := Dropped(bitmap[..], tables[t], numberPages).1]))
    {
      ghost var was, table0 := bitmap[..], tables[t];
      ghost var tables0 := tables;
      var n: nat := numberPages;
      while n > 1
        invariant |tables| == |tables0| && 0 <= n <= |tables[t].pages| && idGlobal == old(idGlobal)
        invariant tables == tables0[t := tables[t]]
        invariant forall i :: 0 <= i < |tables[t].pages| ==> 0 <= tables[t].pages[i].frame < bitmap.Length
        invariant Dropped(bitmap[..], tables[t], n) == Dropped(was, table0, numberPages)
      {
        var lastsIndex := |tables[t].pages| - 1;
        var lastPage := tables[t].pages[lastsIndex];
        bitmap[lastPage.frame] := false;
        tables := tables[t := Table(tables[t].pid, tables[t].pages[..lastsIndex], tables[t].lastUsedPageID - 1)];
        n := n - 1;
      }
    }

    /** A table for a process that has none, if the free frames suffice. */
    method PlayingGodCreation(pid: int, numberPages: nat) returns (ok: bool)
      requires Valid() && TableOf(tables, pid) == -1 && numberPages > 0
      modifies this, bitmap, mainMemory
      ensures Valid()
      ensures ok <==> numberPages <= |FreeFrames(old(bitmap[..]))|
      ensures !ok ==> View() == old(View())
      ensures ok ==>
                var m := old(View());
                var a := Save(m.P, m.bits, m.mem, m.idGlobal, Stars(numberPages * m.P));
                View() == m.(bits := a.bits, mem := a.mem, tables := m.tables + [Table(pid, a.pages, |a.pages|)],
                             idGlobal := a.nextId - |a.pages|)
    {
      hide Save, FreeFrames, TableOf;
      var available := PageAvailability();
      if available < numberPages {
        return false;
      }
      var pages := SaveInPage(Stars(numberPages * pageLength), pid);
      tables := tables + [Table(pid, pages, |pages|)];
      idGlobal := idGlobal - |pages|;
      return true;
    }

    /** The reported value is 1 for a process without a table whether or not its table could be made. */
    method ResizeProcess(pid: int, size: nat) returns (r: int)
      requires Valid() && Resizable(View(), pid, size)
      modifies this, bitmap, mainMemory
      ensures Valid() && (View(), r) == Resize(old(View()), pid, size)
      ensures r == 0 || r == 1
    {
      hide Save, FreeFrames, CeilDiv, Dropped;
      var t := TableOf(tables, pid);
      if t == -1 {
        SomePages(size, pageLength);
        var ok := PlayingGodCreation(pid, CeilDiv(size, pageLength));
        return 1;
      }
      var currentSize := |tables[t].pages| * pageLength;
      if size == currentSize {
        return 1;
      } else if size < currentSize {
        DropFits(View(), t, size);
        FreePagesFromTheEnd(t, CeilDiv(currentSize - size, pageLength));
        return 1;
      }
      var available := PageAvailability();
      if available < CeilDiv(size - currentSize, pageLength) {
        return 0;
      }
      Enlarge(t, size - currentSize);
      return 1;
    }

    method Enlarge(t: nat, diff: nat)
      requires Valid() && t < |tables| && TableOf(tables, tables[t].pid) == t
      modifies this, bitmap, mainMemory
      ensures Valid() && View() == Enlarged(old(View()), t, diff)
    {
      hide Save, TableOf;
      ghost var table := tables[t];
      var pages := SaveInPage(Stars(diff), tables[t].pid);
      assert tables[t].pages == table.pages && tables[t].pid == table.pid;
      tables := tables[t := Table(tables[t].pid, tables[t].pages + pages, tables[t].lastUsedPageID)];
    }

    /**
     The frame of the page with this number in the process's table; while resize's invariant holds, -1 exactly
     when there is no such page.
     */
    method GetFrame(pid: int, pageNumber: nat) returns (frame: int)
      ensures frame == FrameOf(tables, pid, pageNumber)
      ensures Good(View()) ==> (frame == -1 <==> !(exists t, i :: IsPage(tables, t, i, pid, pageNumber)))
      ensures Good(View()) ==>
                forall t, i :: IsPage(tables, t, i, pid, pageNumber) ==> frame == tables[t].pages[i].frame
    {
      hide Good;
      var t := 0;
      while t < |tables| && tables[t].pid != pid
        invariant 0 <= t <= |tables|
        invariant forall u :: 0 <= u < t ==> tables[u].pid != pid
      {
        t := t + 1;
      }
      FirstTable(tables, pid, t);
      if t < |tables| && |tables[t].pages| > pageNumber {
        frame := tables[t].pages[pageNumber].frame;
      } else {
        frame := -1;
      }
      if Good(View()) {
        FrameIsPage(View(), pid, pageNumber);
      }
    }

    // ----- reads and writes -----

    /** The frame of the page after the one on the address's frame, or -1. */
    method NextPageOf(pages: seq<Page>, frame: int) returns (next: int)
      ensures next == NextFrame(pages, frame)
    {
      var i := 0;
      assert pages[0..] == pages;
      while i < |pages|
        invariant i <= |pages|
        invariant NextFrame(pages, frame) == NextFrame(pages[i..], frame)
      {
        assert pages[i..][0] == pages[i] && pages[i..][1..] == pages[i + 1..];
        if pages[i].frame == frame {
          return if i + 1 < |pages| then pages[i + 1].frame else -1;
        }
        i := i + 1;
      }
      return -1;
    }
  
    /** The bytes of main memory from an address on. */
    method CopyOut(address: nat, n: nat) returns (data: seq<byte>)
      requires address + n <= mainMemory.Length
      ensures data == mainMemory[..][address..address + n]
    {
      data := mainMemory[address..address + n];
    }

    /** A read that starts in a page of the process; Fault where the original would crash. */
    method ReadFrom(pid: int, opSize: nat, address: nat) returns (r: Outcome<seq<byte>>)
      requires Valid() && TableOf(tables, pid) != -1 && address < mainMemory.Length
      requires Mapped(pageLength, mainMemory[..], tables[TableOf(tables, pid)].pages)
      ensures InMemory(pageLength, mainMemory[..], address / pageLength) && address % pageLength < pageLength
      ensures r == ReadAt(pageLength, mainMemory[..], tables[TableOf(tables, pid)].pages,
                          address / pageLength, address % pageLength, opSize)
    {
      hide TableOf, Mapped, ReadAt, ReadChain, Prepend;
      var P := pageLength;
      var pages := tables[TableOf(tables, pid)].pages;
      var frame, offset := address / P, address % P;
      AddressInMemory(P, bitmap.Length, address);
      ReadFirst(P, mainMemory[..], pages, frame, offset, opSize, address);
      if offset != 0 && offset + opSize < P {
        return Fault;
      }
      var value := CopyOut(address, if offset != 0 then P - offset else Min(opSize, P));
      if offset == 0 && opSize <= P {
        return Done(value);
      }
      r := ReadOn(pages, frame, value, opSize - (P - offset));
    }

    /** The pages after the first one, appended to what has been read. */
    method ReadOn(pages: seq<Page>, first: int, start: seq<byte>, n: nat) returns (r: Outcome<seq<byte>>)
      requires Valid() && Mapped(pageLength, mainMemory[..], pages)
      ensures r == Prepend(start, ReadChain(pageLength, mainMemory[..], pages, first, n))
    {
      hide Mapped, FrameBytes, NextFrame, ReadChain, Prepend;
      var P := pageLength;
      ghost var mem := mainMemory[..];
      var frame, value, left: nat := first, start, n;
      while left != 0 && left >= P
        invariant Prepend(start, ReadChain(P, mem, pages, first, n)) == Prepend(value, ReadChain(P, mem, pages, frame, left))
        decreases left
      {
        var next := NextPageOf(pages, frame);
        ReadStep(P, mem, pages, frame, left, value);
        if next == -1 {
          return Fault;
        }
        var page := CopyOut(next * P, P);
        frame, value, left := next, value + page, left - P;
      }
      ReadStep(P, mem, pages, frame, left, value);
      if left != 0 {
        var next := NextPageOf(pages, frame);
        if next == -1 {
          return Fault;
        }
        var part := CopyOut(next * P, left);
        value := value + part;
      }
      return Done(value);
    }

    /** A write that starts in a page of the process; false where the original would crash. */
    method OccupyPhysicalAddress(data: seq<byte>, address: nat, pid: int) returns (ok: bool)
      requires Valid() && TableOf(tables, pid) != -1 && address < mainMemory.Length
      requires Mapped(pageLength, mainMemory[..], tables[TableOf(tables, pid)].pages)
      modifies mainMemory
      ensures Valid()
      ensures InMemory(pageLength, old(mainMemory[..]), address / pageLength) && address % pageLength < pageLength
      ensures WriteAt(pageLength, old(mainMemory[..]), tables[TableOf(tables, pid)].pages,
                      address / pageLength, address % pageLength, data)
           == if ok then Done(mainMemory[..]) else Fault
    {
      hide TableOf, Mapped, NextFrame, Overlay;
      var P := pageLength;
      var pages := tables[TableOf(tables, pid)].pages;
      var frame, offset := address / P, address % P;
      AddressInMemory(P, bitmap.Length, address);
      if P - offset >= |data| {
        CopyIn(address, data);
        return true;
      }
      if |data| < P || address + P > mainMemory.Length {
        return false;
      }
      ghost var was := mainMemory[..];
      CopyIn(address, data[..P]);
      MappedStill(P, was, mainMemory[..], pages);
      ok := WriteOn(pages, frame, data[P..]);
    }

    method WriteOn(pages: seq<Page>, first: int, data: seq<byte>) returns (ok: bool)
      requires Valid() && Mapped(pageLength, mainMemory[..], pages)
      modifies mainMemory
      ensures WriteChain(pageLength, old(mainMemory[..]), pages, first, data) == if ok then Done(mainMemory[..]) else Fault
    {
      hide Mapped, NextFrame, Overlay;
      var P := pageLength;
      var frame, rest := first, data;
      while |rest| > P
        invariant Mapped(P, mainMemory[..], pages)
        invariant WriteChain(P, old(mainMemory[..]), pages, first, data) == WriteChain(P, mainMemory[..], pages, frame, rest)
        decreases |rest|
      {
        var next := NextPageOf(pages, frame);
        NextInMemory(P, mainMemory[..], pages, frame);
        if next == -1 {
          return false;
        }
        ghost var was := mainMemory[..];
        CopyIn(next * P, rest[..P]);
        MappedStill(P, was, mainMemory[..], pages);
        frame, rest := next, rest[P..];
      }
      var next := NextPageOf(pages, frame);
      NextInMemory(P, mainMemory[..], pages, frame);
      if next == -1 {
        return false;
      }
      CopyIn(next * P, rest);
      return true;
    }
  }

  function Prepend(front: seq<byte>, o: Outcome<seq<byte>>): (r: Outcome<seq<byte>>) {
    if o.Fault? then Fault else Done(front + o.value)
  }

  lemma PrependTwice(a: seq<byte>, b: seq<byte>, o: Outcome<seq<byte>>)
    ensures Prepend(a, Prepend(b, o)) == Prepend(a + b, o)
  {
    if o.Done? {
      assert a + (b + o.value) == a + b + o.value;
    }
  }

  /** One step of a read: nothing left, no next page, part of a page, or a page and more. */
  lemma ReadStep(P: nat, mem: seq<byte>, pages: seq<Page>, frame: int, n: nat, value: seq<byte>)
    requires Mapped(P, mem, pages)
    ensures var next, all := NextFrame(pages, frame), Prepend(value, ReadChain(P, mem, pages, frame, n));
            && (n == 0 ==> all == Done(value))
            && (n != 0 && next == -1 ==> all == Fault)
            && (next != -1 ==> 0 <= next && next * P + P <= |mem|)
            && (0 < n < P && next != -1 ==> all == Done(value + mem[next * P..next * P + n]))
            && (n >= P && next != -1 ==>
                  all == Prepend(value + mem[next * P..next * P + P], ReadChain(P, mem, pages, next, n - P)))
  {
    hide NextFrame;
    NextInMemory(P, mem, pages, frame);
    var next := NextFrame(pages, frame);
    if next != -1 && n < P {
      SliceOfSlice(mem, next * P, P, 0, n);
    }
    if next != -1 && n >= P {
      PrependTwice(value, FrameBytes(P, mem, next), ReadChain(P, mem, pages, next, n - P));
    }
    if n == 0 {
      assert value + [] == value;
    }
  }

  lemma AddressInMemory(P: nat, n: nat, address: nat)
    requires P > 0 && address < n * P
    ensures address / P < n && address / P * P + P <= n * P
    ensures address / P * P + address % P == address
  {
    assert address == P * (address / P) + address % P;
    assert n * P == P * n;
    LessByFactor(P, address / P, n);
    FrameInRange(P, n, address / P);
  }

  lemma SliceOfSlice(mem: seq<byte>, start: nat, P: nat, off: nat, n: nat)
    requires start + P <= |mem| && off <= P && n <= P
    ensures mem[start..start + P][off..] == mem[start + off..start + P]
    ensures mem[start..start + P][..n] == mem[start..start + n]
  {
  }

  /** A read by its address: the fault, a read inside the page, or the rest of the page and the pages after it. */
  lemma ReadFirst(P: nat, mem: seq<byte>, pages: seq<Page>, frame: nat, off: nat, n: nat, address: nat)
    requires InMemory(P, mem, frame) && off < P && address == frame * P + off
    ensures address + (P - off) <= |mem|
    ensures off != 0 && off + n < P ==> ReadAt(P, mem, pages, frame, off, n) == Fault
    ensures off == 0 && n <= P ==> ReadAt(P, mem, pages, frame, off, n) == Done(mem[address..address + n])
    ensures off + n >= P && !(off == 0 && n <= P) ==>
              ReadAt(P, mem, pages, frame, off, n)
              == Prepend(mem[address..address + (P - off)], ReadChain(P, mem, pages, frame, n - (P - off)))
  {
    hide ReadChain, FrameBytes;
    FrameSliced(P, mem, frame, off, if n <= P then n else P);
  }

  lemma FrameSliced(P: nat, mem: seq<byte>, f: nat, off: nat, n: nat)
    requires InMemory(P, mem, f) && off <= P && n <= P
    ensures FrameBytes(P, mem, f)[off..] == mem[f * P + off..f * P + P]
    ensures FrameBytes(P, mem, f)[..n] == mem[f * P..f * P + n]
  {
    SliceOfSlice(mem, f * P, P, off, n);
  }

  /** The frame the search finds is one of the process's pages, so in memory; or there is none. */
  lemma {:induction false} NextInMemory(P: nat, mem: seq<byte>, pages: seq<Page>, frame: int)
    requires Mapped(P, mem, pages)
    ensures NextFrame(pages, frame) == -1 || InMemory(P, mem, NextFrame(pages, frame))
    decreases |pages|
  {
    if |pages| > 0 {
      TailMapped(P, mem, pages);
      NextInMemory(P, mem, pages[1..], frame);
    }
  }

  /** Page `i` of table `t` is the page with this number of this process. */
  predicate IsPage(tables: seq<Table>, t: int, i: int, pid: int, number: nat) {
    0 <= t < |tables| && tables[t].pid == pid && 0 <= i < |tables[t].pages| && tables[t].pages[i].id == number
  }

  lemma FirstTable(tables: seq<Table>, pid: int, t: nat)
    requires t <= |tables| && (t < |tables| ==> tables[t].pid == pid)
    requires forall u :: 0 <= u < t ==> tables[u].pid != pid
    ensures TableOf(tables, pid) == if t < |tables| then t else -1
  {
    var f := TableOf(tables, pid);
  }

  /** The place in the table is the number of the page, and pids are distinct. */
  lemma FrameIsPage(m: Memory, pid: int, number: nat)
    requires Good(m)
    ensures FrameOf(m.tables, pid, number) == -1 <==> !(exists t, i :: IsPage(m.tables, t, i, pid, number))
    ensures forall t, i :: IsPage(m.tables, t, i, pid, number) ==>
              FrameOf(m.tables, pid, number) == m.tables[t].pages[i].frame
  {
    hide TableOf;
    TableOfMeans(m.tables, pid);
    var t := TableOf(m.tables, pid);
    if t != -1 && number < |m.tables[t].pages| {
      FramesDistinct(m, t, number, t, number);
      assert IsPage(m.tables, t, number, pid, number);
    }
  }

  /** The frame a page table gives for a page, -1 when there is none. */
  function FrameOf(tables: seq<Table>, pid: int, page: nat): (f: int) {
    var t := TableOf(tables, pid);
    if t == -1 || page >= |tables[t].pages| then -1 else tables[t].pages[page].frame
  }

  lemma SomePages(size: nat, P: nat)
    requires P > 0
    ensures size > 0 ==> CeilDiv(size, P) > 0
  {
    if size > 0 {
      DiffPositive(size, P);
    }
  }

  lemma {:induction false} NothingTaken(bits: seq<bool>)
    requires forall f :: 0 <= f < |bits| ==> !bits[f]
    ensures Taken(bits) == multiset{} && |FreeFrames(bits)| == |bits|
  {
    if |bits| > 0 {
      NothingTaken(bits[..|bits| - 1]);
    }
  }

  lemma WithNextIdSame(m: Memory, pid: int)
    ensures WithNextId(m, pid, NextId(m, pid)) == m
  {
  }

  lemma FreeInRange(bits: seq<bool>)
    requires FreeFrames(bits) != []
    ensures FreeFrames(bits)[0] < |bits|
  {
  }
}
