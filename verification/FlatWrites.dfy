/**
 Writes to a process's pages: the chain of page copies, its effect on the flat bytes, and exactly which
 writes act as one write on the flat bytes.
 */
module FlatWrites {
  import opened BitStrings
  import opened Paging
  import opened FlatMemory

  /** Copies after the first one: full pages while more than a page is left, then the rest. */
  function WriteChain(P: nat, mem: seq<byte>, pages: seq<Page>, frame: int, rest: seq<byte>): (r: Outcome<seq<byte>>)
    requires P > 0
    ensures r.Done? ==> |r.value| == |mem|
    decreases |rest|
  {
    var next := NextFrame(pages, frame);
    if !InMemory(P, mem, next) then Fault
    else if |rest| <= P then Done(Overlay(mem, next * P, rest))
    else WriteChain(P, Overlay(mem, next * P, rest[..P]), pages, next, rest[P..])
  }

  /**
   A write at offset `off` of `frame`. What does not fit the page starts with a copy of a whole page's
   length from that offset on, across the end of the frame; shorter data then ends in a copy of negative
   length.
   */
  function WriteAt(P: nat, mem: seq<byte>, pages: seq<Page>, frame: int, off: nat, data: seq<byte>): (r: Outcome<seq<byte>>)
    requires off < P && InMemory(P, mem, frame)
    ensures r.Done? ==> |r.value| == |mem|
  {
    if off + |data| <= P then Done(Overlay(mem, frame * P + off, data))
    else if |data| < P || frame * P + off + P > |mem| then Fault
    else WriteChain(P, Overlay(mem, frame * P + off, data[..P]), pages, frame, data[P..])
  }

  predicate OnNone(pages: seq<Page>, f: int) {
    forall i :: 0 <= i < |pages| ==> pages[i].frame != f
  }

  lemma {:induction false} FlatUnchanged(P: nat, mem: seq<byte>, now: seq<byte>, pages: seq<Page>)
    requires Mapped(P, mem, pages) && |now| == |mem|
    requires forall i :: 0 <= i < |pages| ==>
               InMemory(P, mem, pages[i].frame) && FrameBytes(P, now, pages[i].frame) == FrameBytes(P, mem, pages[i].frame)
    ensures Mapped(P, now, pages) && Flat(P, now, pages) == Flat(P, mem, pages)
  {
    hide FrameBytes;
    MappedStill(P, mem, now, pages);
    if |pages| > 0 {
      TailMapped(P, mem, pages);
      TailMapped(P, now, pages);
      FlatUnchanged(P, mem, now, pages[1..]);
    }
  }

  lemma MappedStill(P: nat, mem: seq<byte>, now: seq<byte>, pages: seq<Page>)
    requires Mapped(P, mem, pages) && |now| == |mem|
    ensures Mapped(P, now, pages)
  {
  }

  lemma OverlayWholeFrame(P: nat, mem: seq<byte>, f: nat, off: nat, data: seq<byte>)
    requires InMemory(P, mem, f) && off + |data| <= P
    ensures f * P + off + |data| <= |mem|
    ensures FrameBytes(P, Overlay(mem, f * P + off, data), f) == Overlay(FrameBytes(P, mem, f), off, data)
  {
  }

  /** One page of the process overwritten in part: the flat bytes change there and nowhere else. */
  lemma WriteOnePage(P: nat, mem: seq<byte>, pages: seq<Page>, i: nat, off: nat, data: seq<byte>)
    requires Mapped(P, mem, pages) && i < |pages| && off + |data| <= P
    ensures InMemory(P, mem, pages[i].frame) && pages[i].frame * P + off + |data| <= |mem|
    ensures var now := Overlay(mem, pages[i].frame * P + off, data);
            && Mapped(P, now, pages)
            && (forall g {:trigger FrameBytes(P, now, g)} :: g != pages[i].frame && InMemory(P, mem, g) ==>
                  FrameBytes(P, now, g) == FrameBytes(P, mem, g))
            && FrameBytes(P, now, pages[i].frame) == Overlay(FrameBytes(P, mem, pages[i].frame), off, data)
  {
    hide FrameBytes, Overlay;
    var f := pages[i].frame;
    OverlayWholeFrame(P, mem, f, off, data);
    var now := Overlay(mem, f * P + off, data);
    MappedStill(P, mem, now, pages);
    forall g | g != f && InMemory(P, mem, g)
      ensures FrameBytes(P, now, g) == FrameBytes(P, mem, g)
    {
      OverlayOtherFrame(P, mem, f, g, off, data);
    }
  }

  lemma LaterDiffer(P: nat, mem: seq<byte>, pages: seq<Page>, i: nat)
    requires Mapped(P, mem, pages) && i < |pages|
    ensures OnNone(pages[i + 1..], pages[i].frame)
  {
  }

  /**
   The chain from page `i`: it succeeds exactly when the pages after `i` can hold the rest, writes it over
   their flat bytes from the start, and touches no other frame.
   */
  lemma {:induction false} WriteChainIsFlat(P: nat, mem: seq<byte>, pages: seq<Page>, i: nat, rest: seq<byte>)
    requires Mapped(P, mem, pages) && i < |pages|
    ensures Mapped(P, mem, pages[i + 1..])
    ensures var flat, r := Flat(P, mem, pages[i + 1..]), WriteChain(P, mem, pages, pages[i].frame, rest);
            && (r.Done? <==> i + 1 < |pages| && |rest| <= |flat|)
            && (r.Done? ==>
                  && |r.value| == |mem| && Mapped(P, r.value, pages[i + 1..])
                  && Flat(P, r.value, pages[i + 1..]) == Overlay(flat, 0, rest)
                  && forall g {:trigger FrameBytes(P, r.value, g)} :: OnNone(pages[i + 1..], g) && InMemory(P, mem, g) ==>
                       FrameBytes(P, r.value, g) == FrameBytes(P, mem, g))
    decreases |rest|, 1
  {
    hide FrameBytes, Overlay, OnNone;
    PartMapped(P, mem, pages, i + 1);
    NextFrameIsNext(P, mem, pages, i);
    if i + 1 < |pages| {
      if |rest| <= P {
        ChainEnds(P, mem, pages, i + 1, rest);
      } else {
        ChainGoesOn(P, mem, pages, i + 1, rest);
      }
    } else {
      assert pages[i + 1..] == [];
    }
  }

  lemma OnNoneTail(pages: seq<Page>, i: nat, g: int)
    requires i < |pages|
    ensures OnNone(pages[i..], g) <==> g != pages[i].frame && OnNone(pages[i + 1..], g)
  {
    assert forall k :: i < k < |pages| ==> pages[k] == pages[i + 1..][k - i - 1];
    assert forall k :: i <= k < |pages| ==> pages[k] == pages[i..][k - i];
  }

  /** The last copy of a chain, onto page `i`. */
  lemma ChainEnds(P: nat, mem: seq<byte>, pages: seq<Page>, i: nat, rest: seq<byte>)
    requires Mapped(P, mem, pages) && i < |pages| && |rest| <= P
    ensures InMemory(P, mem, pages[i].frame) && Mapped(P, mem, pages[i..])
    ensures |rest| <= |Flat(P, mem, pages[i..])|
    ensures var now := Overlay(mem, pages[i].frame * P, rest);
            && Mapped(P, now, pages) && Mapped(P, now, pages[i..])
            && Flat(P, now, pages[i..]) == Overlay(Flat(P, mem, pages[i..]), 0, rest)
            && forall g {:trigger FrameBytes(P, now, g)} :: OnNone(pages[i..], g) && InMemory(P, mem, g) ==>
                 FrameBytes(P, now, g) == FrameBytes(P, mem, g)
  {
    hide FrameBytes, Overlay, OnNone;
    WriteOnePage(P, mem, pages, i, 0, rest);
    var now := Overlay(mem, pages[i].frame * P, rest);
    FlatHead(P, mem, pages, i);
    FlatHead(P, now, pages, i);
    OthersSame(P, mem, now, pages, i);
    OverlayHead(FrameBytes(P, mem, pages[i].frame), Flat(P, mem, pages[i + 1..]), rest);
    forall g | OnNone(pages[i..], g) && InMemory(P, mem, g)
      ensures FrameBytes(P, now, g) == FrameBytes(P, mem, g)
    {
      OnNoneTail(pages, i, g);
    }
  }

  lemma OverlayHead(h: seq<byte>, t: seq<byte>, w: seq<byte>)
    requires |w| <= |h|
    ensures Overlay(h + t, 0, w) == Overlay(h, 0, w) + t
  {
  }

  /** The pages after `i` keep their flat bytes when only the frame of page `i` changes. */
  lemma OthersSame(P: nat, mem: seq<byte>, now: seq<byte>, pages: seq<Page>, i: nat)
    requires Mapped(P, mem, pages) && i < |pages| && |now| == |mem|
    requires forall g {:trigger FrameBytes(P, now, g)} :: g != pages[i].frame && InMemory(P, mem, g) ==>
               FrameBytes(P, now, g) == FrameBytes(P, mem, g)
    ensures Mapped(P, mem, pages[i + 1..]) && Mapped(P, now, pages[i + 1..])
    ensures Flat(P, now, pages[i + 1..]) == Flat(P, mem, pages[i + 1..])
  {
    hide FrameBytes;
    PartMapped(P, mem, pages, i + 1);
    LaterDiffer(P, mem, pages, i);
    FlatUnchanged(P, mem, now, pages[i + 1..]);
  }

  /** A full page copied onto page `i`, and the chain from there. */
  lemma {:induction false} ChainGoesOn(P: nat, mem: seq<byte>, pages: seq<Page>, i: nat, rest: seq<byte>)
    requires Mapped(P, mem, pages) && i < |pages| && |rest| > P
    ensures InMemory(P, mem, pages[i].frame) && Mapped(P, mem, pages[i..])
    ensures var flat := Flat(P, mem, pages[i..]);
            var r := WriteChain(P, Overlay(mem, pages[i].frame * P, rest[..P]), pages, pages[i].frame, rest[P..]);
            && (r.Done? <==> |rest| <= |flat|)
            && (r.Done? ==>
                  && |r.value| == |mem| && Mapped(P, r.value, pages[i..])
                  && Flat(P, r.value, pages[i..]) == Overlay(flat, 0, rest)
                  && forall g {:trigger FrameBytes(P, r.value, g)} :: OnNone(pages[i..], g) && InMemory(P, mem, g) ==>
                       FrameBytes(P, r.value, g) == FrameBytes(P, mem, g))
    decreases |rest|, 0
  {
    hide FrameBytes, Overlay, OnNone, WriteChain;
    ChainEnds(P, mem, pages, i, rest[..P]);
    var mid := Overlay(mem, pages[i].frame * P, rest[..P]);
    WriteOnePage(P, mem, pages, i, 0, rest[..P]);
    WriteChainIsFlat(P, mid, pages, i, rest[P..]);
    var r := WriteChain(P, mid, pages, pages[i].frame, rest[P..]);
    FlatHead(P, mem, pages, i);
    FlatHead(P, mid, pages, i);
    OthersSame(P, mem, mid, pages, i);
    if r.Done? {
      MappedStill(P, mem, r.value, pages);
      FlatHead(P, r.value, pages, i);
      LaterDiffer(P, mem, pages, i);
      WholeThenRest(FrameBytes(P, mem, pages[i].frame), Flat(P, mem, pages[i + 1..]), rest);
      forall g | OnNone(pages[i..], g) && InMemory(P, mem, g)
        ensures FrameBytes(P, r.value, g) == FrameBytes(P, mem, g)
      {
        OnNoneTail(pages, i, g);
      }
    }
  }

  lemma WholeThenRest(h: seq<byte>, t: seq<byte>, rest: seq<byte>)
    requires |h| < |rest| <= |h + t|
    ensures |rest[|h|..]| <= |t|
    ensures Overlay(h + t, 0, rest) == Overlay(h, 0, rest[..|h|]) + Overlay(t, 0, rest[|h|..])
  {
  }

  // ----- whole writes -----

  /** The write acts as one write on the flat bytes of the process and leaves every other frame alone. */
  ghost predicate ActsFlat(P: nat, mem: seq<byte>, pages: seq<Page>, i: nat, off: nat, data: seq<byte>)
    requires Mapped(P, mem, pages) && i < |pages| && off < P
  {
    && InMemory(P, mem, pages[i].frame)
    && i * P + off + |data| <= |Flat(P, mem, pages)|
    && var r := WriteAt(P, mem, pages, pages[i].frame, off, data);
       && r.Done? && Mapped(P, r.value, pages)
       && Flat(P, r.value, pages) == Overlay(Flat(P, mem, pages), i * P + off, data)
       && forall g {:trigger FrameBytes(P, r.value, g)} :: OnNone(pages, g) && InMemory(P, mem, g) ==>
            FrameBytes(P, r.value, g) == FrameBytes(P, mem, g)
  }

  lemma OverlayTail(head: seq<byte>, tail: seq<byte>, off: nat, w: seq<byte>)
    requires off + |w| <= |tail|
    ensures Overlay(head + tail, |head| + off, w) == head + Overlay(tail, off, w)
  {
  }

  /** From what happens to the pages from `i` on to what happens to all of them. */
  lemma FromTail(P: nat, mem: seq<byte>, now: seq<byte>, pages: seq<Page>, i: nat, off: nat, data: seq<byte>)
    requires Mapped(P, mem, pages) && i < |pages| && |now| == |mem|
    requires Mapped(P, mem, pages[i..]) && Mapped(P, now, pages[i..])
    requires off + |data| <= |Flat(P, mem, pages[i..])|
    requires Flat(P, now, pages[i..]) == Overlay(Flat(P, mem, pages[i..]), off, data)
    requires forall g {:trigger FrameBytes(P, now, g)} :: OnNone(pages[i..], g) && InMemory(P, mem, g) ==>
               FrameBytes(P, now, g) == FrameBytes(P, mem, g)
    ensures Mapped(P, now, pages) && i * P + off + |data| <= |Flat(P, mem, pages)|
    ensures Flat(P, now, pages) == Overlay(Flat(P, mem, pages), i * P + off, data)
  {
    hide FrameBytes, Overlay;
    MappedStill(P, mem, now, pages);
    FlatSplit(P, mem, pages, i);
    FlatSplit(P, now, pages, i);
    EarlierOnNone(P, mem, pages, i);
    FlatUnchanged(P, mem, now, pages[..i]);
    assert |Flat(P, mem, pages[..i])| == i * P;
    OverlayTail(Flat(P, mem, pages[..i]), Flat(P, mem, pages[i..]), off, data);
  }

  lemma EarlierOnNone(P: nat, mem: seq<byte>, pages: seq<Page>, i: nat)
    requires Mapped(P, mem, pages) && i < |pages|
    ensures forall k :: 0 <= k < i ==> OnNone(pages[i..], pages[..i][k].frame) && InMemory(P, mem, pages[..i][k].frame)
  {
  }

  lemma OnNoneAll(pages: seq<Page>, i: nat, g: int)
    requires i <= |pages| && OnNone(pages, g)
    ensures OnNone(pages[i..], g)
  {
  }

  /** A write inside one page. */
  lemma WriteInPage(P: nat, mem: seq<byte>, pages: seq<Page>, i: nat, off: nat, data: seq<byte>)
    requires Mapped(P, mem, pages) && i < |pages| && off < P && off + |data| <= P
    ensures ActsFlat(P, mem, pages, i, off, data)
  {
    hide FrameBytes, Overlay, OnNone;
    WriteOnePage(P, mem, pages, i, off, data);
    var now := Overlay(mem, pages[i].frame * P + off, data);
    FlatHead(P, mem, pages, i);
    FlatHead(P, now, pages, i);
    OthersSame(P, mem, now, pages, i);
    OverlayInHead(FrameBytes(P, mem, pages[i].frame), Flat(P, mem, pages[i + 1..]), off, data);
    forall g | OnNone(pages[i..], g) && InMemory(P, mem, g)
      ensures FrameBytes(P, now, g) == FrameBytes(P, mem, g)
    {
      OnNoneTail(pages, i, g);
    }
    forall g | OnNone(pages, g)
      ensures OnNone(pages[i..], g)
    {
      OnNoneAll(pages, i, g);
    }
    FromTail(P, mem, now, pages, i, off, data);
  }

  lemma OverlayInHead(h: seq<byte>, t: seq<byte>, off: nat, w: seq<byte>)
    requires off + |w| <= |h|
    ensures Overlay(h + t, off, w) == Overlay(h, off, w) + t
  {
  }

  /** A write from the start of a page, over as many pages as it takes. */
  lemma WriteAligned(P: nat, mem: seq<byte>, pages: seq<Page>, i: nat, data: seq<byte>)
    requires Mapped(P, mem, pages) && i < |pages| && |data| > P
    requires i * P + |data| <= |pages| * P
    ensures ActsFlat(P, mem, pages, i, 0, data)
  {
    hide FrameBytes, Overlay, OnNone, WriteChain;
    ChainGoesOn(P, mem, pages, i, data);
    TailLength(P, |pages|, i);
    var r := WriteChain(P, Overlay(mem, pages[i].frame * P, data[..P]), pages, pages[i].frame, data[P..]);
    forall g | OnNone(pages, g)
      ensures OnNone(pages[i..], g)
    {
      OnNoneAll(pages, i, g);
    }
    FromTail(P, mem, r.value, pages, i, 0, data);
  }

  lemma TailLength(P: nat, k: nat, i: nat)
    requires i <= k
    ensures i * P + (k - i) * P == k * P
  {
  }

  /** The writes the code is right for: inside a page, or from the start of one. */
  lemma WriteIsFlat(P: nat, mem: seq<byte>, pages: seq<Page>, i: nat, off: nat, data: seq<byte>)
    requires Mapped(P, mem, pages) && i < |pages| && off < P
    requires off + |data| <= P || off == 0
    requires i * P + off + |data| <= |pages| * P
    ensures ActsFlat(P, mem, pages, i, off, data)
  {
    hide ActsFlat;
    if off + |data| <= P {
      WriteInPage(P, mem, pages, i, off, data);
    } else {
      WriteAligned(P, mem, pages, i, data);
    }
  }

  /** Data written from the start of a page is what a read of its length returns from there. */
  lemma WriteThenRead(P: nat, mem: seq<byte>, pages: seq<Page>, i: nat, data: seq<byte>)
    requires Mapped(P, mem, pages) && i < |pages|
    requires i * P + |data| <= |pages| * P
    ensures InMemory(P, mem, pages[i].frame)
    ensures var r := WriteAt(P, mem, pages, pages[i].frame, 0, data);
            r.Done? && InMemory(P, r.value, pages[i].frame)
            && ReadAt(P, r.value, pages, pages[i].frame, 0, |data|) == Done(data)
  {
    hide FrameBytes, WriteAt, ReadAt;
    WriteIsFlat(P, mem, pages, i, 0, data);
    var now := WriteAt(P, mem, pages, pages[i].frame, 0, data).value;
    ReadIsFlat(P, now, pages, i, 0, |data|);
  }
}
