/** What the pages of a new allocation hold: the data, page after page. */
module FreshPages {
  import opened BitStrings
  import opened Paging
  import opened Resizing
  import opened ResizeProof
  import opened FlatMemory

  /** Two lists of pages mapped on frames of which none is in both. */
  lemma MappedBoth(P: nat, mem: seq<byte>, a: seq<Page>, b: seq<Page>)
    requires Mapped(P, mem, a) && Mapped(P, mem, b)
    requires forall i, j :: 0 <= i < |a| && 0 <= j < |b| ==> a[i].frame != b[j].frame
    ensures Mapped(P, mem, a + b) && Flat(P, mem, a + b) == Flat(P, mem, a) + Flat(P, mem, b)
  {
    hide FrameBytes;
    FlatSplit(P, mem, a + b, |a|);
    assert (a + b)[..|a|] == a && (a + b)[|a|..] == b;
  }

  lemma OnePage(P: nat, mem: seq<byte>, page: Page)
    requires P > 0 && InMemory(P, mem, page.frame)
    ensures Mapped(P, mem, [page]) && Flat(P, mem, [page]) == FrameBytes(P, mem, page.frame)
  {
    hide FrameBytes;
    assert [page][1..] == [];
  }

  lemma FilledFrame(P: nat, mem: seq<byte>, f: nat, data: seq<byte>)
    requires InMemory(P, mem, f) && |data| <= P
    ensures var now := Overlay(mem, f * P, data);
            InMemory(P, now, f) && FrameBytes(P, now, f)[..|data|] == data
  {
  }

  /** Frames of new pages were free, so they are not those of pages before. */
  lemma NewFramesFree(P: nat, bits: seq<bool>, mem: seq<byte>, nextId: int, data: seq<byte>, j: nat)
    requires Sized(P, bits, mem) && j < |Save(P, bits, mem, nextId, data).pages|
    ensures var f := Save(P, bits, mem, nextId, data).pages[j].frame;
            0 <= f < |bits| && !bits[f] && Save(P, bits, mem, nextId, data).bits[f]
  {
    hide Save, FreeFrames;
    SaveTakesLowest(P, bits, mem, nextId, data);
    var f := Save(P, bits, mem, nextId, data).pages[j].frame;
    assert f == FreeFrames(bits)[j];
    FreeMeans(bits, j);
    SaveBits(P, bits, mem, nextId, data, f);
  }

  lemma FreeMeans(bits: seq<bool>, j: nat)
    requires j < |FreeFrames(bits)|
    ensures FreeFrames(bits)[j] < |bits| && !bits[FreeFrames(bits)[j]]
  {
  }

  /**
   With frames enough, the new pages lie on frames of their own and their bytes begin with the data, whatever
   its length.
   */
  lemma {:induction false} SaveHoldsData(P: nat, bits: seq<bool>, mem: seq<byte>, nextId: int, data: seq<byte>)
    requires Sized(P, bits, mem) && Wanted(P, |data|) <= |FreeFrames(bits)|
    ensures var a := Save(P, bits, mem, nextId, data);
            Mapped(P, a.mem, a.pages) && |data| <= |Flat(P, a.mem, a.pages)|
            && Flat(P, a.mem, a.pages)[..|data|] == data
    decreases |data|
  {
    hide FrameBytes, Overlay, Flat, FreeFrames;
    var a := Save(P, bits, mem, nextId, data);
    if |data| <= P {
      NewFramesFree(P, bits, mem, nextId, data, 0);
      FrameInRange(P, |bits|, a.pages[0].frame);
      FilledFrame(P, mem, a.pages[0].frame, data);
      OnePage(P, a.mem, a.pages[0]);
    } else {
      SaveInParts(P, bits, mem, nextId, data);
    }
  }

  /** A full page of data takes the lowest free frame and leaves the others. */
  lemma SaveOnePage(P: nat, bits: seq<bool>, mem: seq<byte>, nextId: int, data: seq<byte>)
    requires Sized(P, bits, mem) && |data| == P && FreeFrames(bits) != []
    ensures var a := Save(P, bits, mem, nextId, data);
            && |a.pages| == 1 && Sized(P, a.bits, a.mem) && |FreeFrames(a.bits)| == |FreeFrames(bits)| - 1
            && 0 <= a.pages[0].frame < |bits| && a.bits[a.pages[0].frame]
            && InMemory(P, a.mem, a.pages[0].frame) && FrameBytes(P, a.mem, a.pages[0].frame) == data
  {
    hide Overlay, FrameBytes, FreeFrames;
    SaveTakesLowest(P, bits, mem, nextId, data);
    var a := Save(P, bits, mem, nextId, data);
    NewFramesFree(P, bits, mem, nextId, data, 0);
    FrameInRange(P, |bits|, a.pages[0].frame);
    FilledFrame(P, mem, a.pages[0].frame, data);
    WholeFrame(FrameBytes(P, a.mem, a.pages[0].frame), data);
  }

  lemma WholeFrame(b: seq<byte>, data: seq<byte>)
    requires |b| == |data| && b[..|data|] == data
    ensures b == data
  {
    assert b[..|b|] == b;
  }

  lemma SaveInParts(P: nat, bits: seq<bool>, mem: seq<byte>, nextId: int, data: seq<byte>)
    requires Sized(P, bits, mem) && Wanted(P, |data|) <= |FreeFrames(bits)| && |data| > P
    ensures var a := Save(P, bits, mem, nextId, data);
            Mapped(P, a.mem, a.pages) && |data| <= |Flat(P, a.mem, a.pages)|
            && Flat(P, a.mem, a.pages)[..|data|] == data
    decreases |data|, 0
  {
    hide Overlay, FrameBytes, FreeFrames, Flat, Mapped, Save;
    var first := Save(P, bits, mem, nextId, data[..P]);
    SaveOnePage(P, bits, mem, nextId, data[..P]);
    var rest := Save(P, first.bits, first.mem, first.nextId, data[P..]);
    SaveHoldsData(P, first.bits, first.mem, first.nextId, data[P..]);
    var f := first.pages[0].frame;
    SaveKeepsTaken(P, first.bits, first.mem, first.nextId, data[P..], f);
    forall j | 0 <= j < |rest.pages|
      ensures rest.pages[j].frame != f
    {
      NewFramesFree(P, first.bits, first.mem, first.nextId, data[P..], j);
    }
    OnePage(P, rest.mem, first.pages[0]);
    assert first.pages == [first.pages[0]];
    MappedBoth(P, rest.mem, first.pages, rest.pages);
    SaveTwo(P, bits, mem, nextId, data);
    PrefixOfBoth(data, P, Flat(P, rest.mem, rest.pages));
  }

  /** What does not fit a page is the first page and then the rest. */
  lemma SaveTwo(P: nat, bits: seq<bool>, mem: seq<byte>, nextId: int, data: seq<byte>)
    requires Sized(P, bits, mem) && |data| > P && FreeFrames(bits) != []
    ensures var first := Save(P, bits, mem, nextId, data[..P]);
            Sized(P, first.bits, first.mem)
            && var a, rest := Save(P, bits, mem, nextId, data), Save(P, first.bits, first.mem, first.nextId, data[P..]);
               a.mem == rest.mem && a.pages == first.pages + rest.pages
  {
  }

  lemma PrefixOfBoth(data: seq<byte>, n: nat, rest: seq<byte>)
    requires n <= |data| && |data| - n <= |rest| && rest[..|data| - n] == data[n..]
    ensures (data[..n] + rest)[..|data|] == data
  {
    assert (data[..n] + rest)[..|data|] == data[..n] + rest[..|data| - n];
  }

  // ----- what a creation and an enlargement leave in the new pages -----

  /** Every byte is an asterisk. */
  predicate AllAsterisks(bytes: seq<byte>) {
    forall i :: 0 <= i < |bytes| ==> bytes[i] == '*' as int
  }

  lemma StarsAsterisks(n: nat)
    ensures AllAsterisks(Stars(n)) && |Stars(n)| == n
  {
  }

  /** With frames enough, the memory of a process just made is asterisks from its first byte to its last. */
  lemma CreatedHolds(m: Memory, pid: int, size: nat)
    requires Good(m) && Resizable(m, pid, size) && TableOf(m.tables, pid) == -1
    requires CeilDiv(size, m.P) <= |FreeFrames(m.bits)|
    ensures var r, t := Resize(m, pid, size).0, |m.tables|;
            && |r.tables| == t + 1 && r.tables[t].pid == pid && |r.tables[t].pages| == CeilDiv(size, m.P)
            && Mapped(m.P, r.mem, r.tables[t].pages) && AllAsterisks(Flat(m.P, r.mem, r.tables[t].pages))
  {
    hide Good, FreeFrames, Save, Flat, FrameBytes, CeilDiv, Stars, Mapped;
    GoodSized(m);
    var need := CeilDiv(size, m.P);
    DiffPositive(size, m.P);
    CeilOfMultiple(need, m.P);
    AtLeastOnePage(m.P, need);
    WantedIsCeil(m.P, need * m.P);
    StarsAsterisks(need * m.P);
    SaveWithRoom(m.P, m.bits, m.mem, m.idGlobal, Stars(need * m.P));
    SaveHoldsData(m.P, m.bits, m.mem, m.idGlobal, Stars(need * m.P));
    var a := Save(m.P, m.bits, m.mem, m.idGlobal, Stars(need * m.P));
    WholeFrame(Flat(m.P, a.mem, a.pages), Stars(need * m.P));
  }

  lemma AtLeastOnePage(P: nat, n: nat)
    requires P > 0 && n > 0
    ensures n * P > 0
  {
  }

  /** An enlargement puts new pages after the old ones, which hold asterisks as far as the size grew. */
  lemma EnlargedHolds(m: Memory, pid: int, size: nat)
    requires Good(m) && Resizable(m, pid, size) && TableOf(m.tables, pid) != -1
    requires var current := |m.tables[TableOf(m.tables, pid)].pages| * m.P;
             size > current && CeilDiv(size - current, m.P) <= |FreeFrames(m.bits)|
    ensures var r, t := Resize(m, pid, size).0, TableOf(m.tables, pid);
            var before, grown := m.tables[t].pages, size - |m.tables[t].pages| * m.P;
            && |r.tables| == |m.tables| && before <= r.tables[t].pages
            && var added := r.tables[t].pages[|before|..];
               && Mapped(m.P, r.mem, added) && grown <= |Flat(m.P, r.mem, added)|
               && AllAsterisks(Flat(m.P, r.mem, added)[..grown])
  {
    hide Good, FreeFrames, Save, Flat, FrameBytes, CeilDiv, Stars, Mapped, TableOf;
    GoodSized(m);
    var t := TableOf(m.tables, pid);
    TableOfMeans(m.tables, pid);
    var grown := size - |m.tables[t].pages| * m.P;
    WantedIsCeil(m.P, grown);
    StarsAsterisks(grown);
    SaveHoldsData(m.P, m.bits, m.mem, m.tables[t].lastUsedPageID, Stars(grown));
    var a := Save(m.P, m.bits, m.mem, m.tables[t].lastUsedPageID, Stars(grown));
    var r := Resize(m, pid, size).0;
    assert r.tables[t].pages == m.tables[t].pages + a.pages;
    assert r.tables[t].pages[|m.tables[t].pages|..] == a.pages;
  }
}
