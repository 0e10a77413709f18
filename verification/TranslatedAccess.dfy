/**
 From the CPU to the bytes of a process: the physical address of a logical one is where the memory module finds that
 byte, and a read or a write there is one on the process's flat memory, with the same exact conditions.
 */
module TranslatedAccess {
  import opened BitStrings
  import opened Paging
  import opened Resizing
  import opened ResizeProof
  import opened FlatMemory
  import opened FlatWrites
  import opened FlatWritesExact
  import opened MemoryModule
  import opened ProcessMemory
  import T = TlbModel

  /** The address the CPU sends for a logical one, when the page has a frame. */
  function Address(m: Memory, pid: int, la: nat): (a: nat)
    requires m.P > 0
  {
    T.Physical(FrameOf(m.tables, pid, la / m.P), m.P, la)
  }

  /** The pages of a process, none without a table. */
  function PagesOf(m: Memory, pid: int): (pages: seq<Page>) {
    var t := TableOf(m.tables, pid);
    if t == -1 then [] else m.tables[t].pages
  }

  /** The page of a logical address has a frame. */
  ghost predicate Mapping(m: Memory, pid: int, la: nat) {
    Good(m) && m.P > 0 && |m.mem| <= 0x1_0000_0000 && FrameOf(m.tables, pid, la / m.P) != -1
  }

  lemma PagesMapped(m: Memory, pid: int)
    requires Good(m)
    ensures Mapped(m.P, m.mem, PagesOf(m, pid))
  {
    hide Good, Mapped;
    if TableOf(m.tables, pid) == -1 {
      NoneMapped(m);
    } else {
      GoodMapped(m, TableOf(m.tables, pid));
    }
  }

  lemma NoneMapped(m: Memory)
    requires Good(m)
    ensures Mapped(m.P, m.mem, [])
  {
  }

  lemma FrameOfPages(m: Memory, pid: int, page: nat)
    requires Good(m) && FrameOf(m.tables, pid, page) != -1
    ensures page < |PagesOf(m, pid)| && FrameOf(m.tables, pid, page) == PagesOf(m, pid)[page].frame
    ensures 0 <= FrameOf(m.tables, pid, page) < |m.bits|
  {
    hide Good;
    FrameOfMapped(m, pid, page);
  }

  /** The address falls on the frame of the page, as far into it as the logical address into its page. */
  lemma AddressParts(m: Memory, pid: int, la: nat)
    requires Mapping(m, pid, la)
    ensures var a, page := Address(m, pid, la), la / m.P;
            && page < |PagesOf(m, pid)| && Split(a, m.P, PagesOf(m, pid)[page].frame, la % m.P)
            && Split(la, m.P, page, la % m.P) && a < |m.mem|
  {
    hide Good, T.Physical, FrameOf, PagesOf;
    GoodSized(m);
    PhysicalIs(m, pid, la);
    FrameOfPages(m, pid, la / m.P);
    var f := FrameOf(m.tables, pid, la / m.P);
    SplitIs(m.P, f, la % m.P);
    SplitIs(m.P, la / m.P, la % m.P);
    SameQuotient(la, m.P, la / m.P, la % m.P);
    FrameInRange(m.P, |m.bits|, f);
  }

  /** `v` is `d` further than the start of page or frame `q`. */
  predicate Split(v: nat, P: nat, q: int, d: nat) {
    P > 0 && d < P && v == q * P + d && v / P == q && v % P == d
  }

  lemma SplitIs(P: nat, q: nat, d: nat)
    requires d < P
    ensures Split(q * P + d, P, q, d)
  {
    SameQuotient(q * P + d, P, q, d);
  }

  /** The byte at the address is the byte of the process's flat memory. */
  lemma TranslatedByte(m: Memory, pid: int, la: nat)
    requires Mapping(m, pid, la)
    ensures Mapped(m.P, m.mem, PagesOf(m, pid))
    ensures var a, flat := Address(m, pid, la), Flat(m.P, m.mem, PagesOf(m, pid));
            a < |m.mem| && la < |flat| && m.mem[a] == flat[la]
  {
    hide Good, Flat, Mapped, Address, PagesOf, FrameOf, Split;
    PagesMapped(m, pid);
    AddressParts(m, pid, la);
    ByteOfPage(m.P, m.mem, PagesOf(m, pid), la / m.P, la % m.P, Address(m, pid, la), la);
  }

  lemma ByteOfPage(P: nat, mem: seq<byte>, pages: seq<Page>, i: nat, off: nat, a: nat, la: nat)
    requires Mapped(P, mem, pages) && i < |pages| && Split(a, P, pages[i].frame, off) && Split(la, P, i, off)
    ensures la < |Flat(P, mem, pages)| && a < |mem| && Flat(P, mem, pages)[la] == mem[a]
  {
    hide Flat, FrameBytes;
    FlatSplit(P, mem, pages, i);
    FlatHead(P, mem, pages, i);
    var head, tail := Flat(P, mem, pages[..i]), Flat(P, mem, pages[i..]);
    assert (head + tail)[|head| + off] == tail[off];
    ByteOfFrame(P, mem, pages[i].frame, off);
  }

  lemma ByteOfFrame(P: nat, mem: seq<byte>, f: nat, off: nat)
    requires InMemory(P, mem, f) && off < P
    ensures f * P + off < |mem| && FrameBytes(P, mem, f)[off] == mem[f * P + off]
  {
  }

  /** A read at the address is the slice of the flat memory from the logical address on, or a fault. */
  lemma TranslatedRead(m: Memory, pid: int, la: nat, n: nat)
    requires Mapping(m, pid, la)
    ensures Mapped(m.P, m.mem, PagesOf(m, pid))
    ensures var a, flat := Address(m, pid, la), Flat(m.P, m.mem, PagesOf(m, pid));
            && InMemory(m.P, m.mem, a / m.P)
            && ReadAt(m.P, m.mem, PagesOf(m, pid), a / m.P, a % m.P, n)
               == if ReadRight(m.P, la % m.P, n) && la + n <= |flat| then Done(flat[la..la + n]) else Fault
  {
    hide Good, Flat, Mapped, Address, PagesOf, ReadAt, ReadRight, FrameOf, Split;
    PagesMapped(m, pid);
    AddressParts(m, pid, la);
    ReadWhere(m.P, m.mem, PagesOf(m, pid), la / m.P, la % m.P, n, Address(m, pid, la), la);
  }

  lemma ReadWhere(P: nat, mem: seq<byte>, pages: seq<Page>, i: nat, off: nat, n: nat, a: nat, la: nat)
    requires Mapped(P, mem, pages) && i < |pages| && Split(a, P, pages[i].frame, off) && Split(la, P, i, off)
    ensures InMemory(P, mem, a / P)
    ensures var flat := Flat(P, mem, pages);
            ReadAt(P, mem, pages, a / P, a % P, n)
            == if ReadRight(P, off, n) && la + n <= |flat| then Done(flat[la..la + n]) else Fault
  {
    hide Flat, Mapped, ReadAt, ReadRight;
    ReadIsFlat(P, mem, pages, i, off, n);
  }

  /** A write at the address, in the cases the code is right for, changes exactly that slice of the flat memory. */
  lemma TranslatedWrite(m: Memory, pid: int, la: nat, data: seq<byte>)
    requires Mapping(m, pid, la) && Mapped(m.P, m.mem, PagesOf(m, pid)) && la / m.P < |PagesOf(m, pid)|
    requires WriteRight(m.P, PagesOf(m, pid), la / m.P, la % m.P, |data|)
    requires la + |data| <= |Flat(m.P, m.mem, PagesOf(m, pid))|
    ensures var a, pages := Address(m, pid, la), PagesOf(m, pid);
            && InMemory(m.P, m.mem, a / m.P)
            && var r := WriteAt(m.P, m.mem, pages, a / m.P, a % m.P, data);
               && r.Done? && Mapped(m.P, r.value, pages)
               && Flat(m.P, r.value, pages) == Overlay(Flat(m.P, m.mem, pages), la, data)
  {
    hide Good, Flat, Mapped, Address, PagesOf, WriteAt, Overlay, WriteRight, FrameOf, Split;
    AddressParts(m, pid, la);
    WriteWhere(m.P, m.mem, PagesOf(m, pid), la / m.P, la % m.P, data, Address(m, pid, la), la);
  }

  lemma WriteWhere(P: nat, mem: seq<byte>, pages: seq<Page>, i: nat, off: nat, data: seq<byte>, a: nat, la: nat)
    requires Mapped(P, mem, pages) && i < |pages| && off < P && WriteRight(P, pages, i, off, |data|)
    requires Split(a, P, pages[i].frame, off) && Split(la, P, i, off) && la + |data| <= |Flat(P, mem, pages)|
    ensures InMemory(P, mem, a / P)
    ensures var r := WriteAt(P, mem, pages, a / P, a % P, data);
            r.Done? && Mapped(P, r.value, pages)
            && Flat(P, r.value, pages) == Overlay(Flat(P, mem, pages), la, data)
  {
    hide Flat, Mapped, WriteAt, Overlay, WriteRight;
    WriteFlatIff(P, mem, pages, i, off, |data|);
    assert ActsFlat(P, mem, pages, i, off, data);
  }
}
