/**
 Exactly which offsets and lengths are safe to write with, whatever the data: the writes inside a page,
 the writes from the start of one, and, by luck, a page's length from the middle of a page whose next
 page happens to lie on the next frame.
 */
module FlatWritesExact {
  import opened BitStrings
  import opened Paging
  import opened FlatMemory
  import opened FlatWrites

  /** The next page of the process lies on the next frame of the memory. */
  predicate NextIsAdjacent(pages: seq<Page>, i: nat) {
    i + 1 < |pages| && pages[i + 1].frame == pages[i].frame + 1
  }

  predicate WriteRight(P: nat, pages: seq<Page>, i: nat, off: nat, n: nat)
    requires i < |pages|
  {
    off == 0 || off + n <= P || (n == P && NextIsAdjacent(pages, i))
  }

  // ----- the lucky case -----

  /** Two frames in a row, as one stretch of bytes. */
  lemma TwoFrames(P: nat, mem: seq<byte>, f: nat)
    requires InMemory(P, mem, f) && InMemory(P, mem, f + 1)
    ensures (f + 1) * P == f * P + P && f * P + 2 * P <= |mem|
    ensures FrameBytes(P, mem, f) + FrameBytes(P, mem, f + 1) == mem[f * P..f * P + 2 * P]
  {
  }

  lemma SpillIntoNext(P: nat, mem: seq<byte>, f: nat, off: nat, data: seq<byte>)
    requires InMemory(P, mem, f) && InMemory(P, mem, f + 1) && |data| == P && off < P
    ensures f * P + off + P <= |mem|
    ensures var now := Overlay(mem, f * P + off, data);
            InMemory(P, now, f) && InMemory(P, now, f + 1)
            && FrameBytes(P, now, f) + FrameBytes(P, now, f + 1)
            == Overlay(FrameBytes(P, mem, f) + FrameBytes(P, mem, f + 1), off, data)
  {
    hide FrameBytes, Overlay;
    TwoFrames(P, mem, f);
    var now := Overlay(mem, f * P + off, data);
    TwoFrames(P, now, f);
    OverlaySlice(mem, f * P, 2 * P, off, data);
  }

  lemma OverlaySlice(s: seq<byte>, lo: nat, n: nat, off: nat, w: seq<byte>)
    requires lo + n <= |s| && off + |w| <= n
    ensures Overlay(s, lo + off, w)[lo..lo + n] == Overlay(s[lo..lo + n], off, w)
  {
  }

  lemma SpillFrame(P: nat, mem: seq<byte>, f: nat, off: nat, data: seq<byte>, g: int)
    requires InMemory(P, mem, f) && InMemory(P, mem, g) && g != f && g != f + 1
    requires |data| == P && off < P && f * P + off + P <= |mem|
    ensures FrameBytes(P, Overlay(mem, f * P + off, data), g) == FrameBytes(P, mem, g)
  {
    hide Overlay;
    assert (f + 1) * P == f * P + P;
    FramesApart(P, f, g);
    FramesApart(P, f + 1, g);
    OverlayFrame(mem, f * P + off, data, g * P, g * P + P);
  }

  lemma EmptyOverlay(s: seq<byte>, at: nat)
    requires at <= |s|
    ensures Overlay(s, at, []) == s
  {
  }

  /** What a page-long write from the middle of a page does: the spilling copy and nothing more. */
  lemma PageLongWrite(P: nat, mem: seq<byte>, pages: seq<Page>, i: nat, off: nat, data: seq<byte>)
    requires Mapped(P, mem, pages) && i + 1 < |pages| && 0 < off < P && |data| == P
    ensures InMemory(P, mem, pages[i].frame) && InMemory(P, mem, pages[i + 1].frame)
    ensures var f := pages[i].frame;
            WriteAt(P, mem, pages, f, off, data)
            == if f * P + off + P > |mem| then Fault else Done(Overlay(mem, f * P + off, data))
  {
    var f := pages[i].frame;
    if f * P + off + P <= |mem| {
      var now := Overlay(mem, f * P + off, data);
      assert data[..P] == data && data[P..] == [];
      NextFrameIsNext(P, mem, pages, i);
      EmptyOverlay(now, pages[i + 1].frame * P);
    }
  }

  lemma LuckyWrite(P: nat, mem: seq<byte>, pages: seq<Page>, i: nat, off: nat, data: seq<byte>)
    requires Mapped(P, mem, pages) && i < |pages| && 0 < off < P && |data| == P && NextIsAdjacent(pages, i)
    ensures ActsFlat(P, mem, pages, i, off, data)
  {
    hide FrameBytes, Overlay, OnNone, WriteAt;
    PageLongWrite(P, mem, pages, i, off, data);
    var f := pages[i].frame;
    SpillIntoNext(P, mem, f, off, data);
    var now := Overlay(mem, f * P + off, data);
    MappedStill(P, mem, now, pages);
    TwoHeads(P, mem, pages, i);
    TwoHeads(P, now, pages, i);
    forall g | OnNone(pages[i..], g) && InMemory(P, mem, g)
      ensures FrameBytes(P, now, g) == FrameBytes(P, mem, g)
    {
      OnNoneTail(pages, i, g);
      OnNoneTail(pages, i + 1, g);
      SpillFrame(P, mem, f, off, data, g);
    }
    LaterUntouched(P, mem, pages, i, off, data);
    OverlayInHead(FrameBytes(P, mem, f) + FrameBytes(P, mem, f + 1), Flat(P, mem, pages[i + 2..]), off, data);
    forall g | OnNone(pages, g)
      ensures OnNone(pages[i..], g)
    {
      OnNoneAll(pages, i, g);
    }
    FromTail(P, mem, now, pages, i, off, data);
  }

  lemma TwoHeads(P: nat, mem: seq<byte>, pages: seq<Page>, i: nat)
    requires Mapped(P, mem, pages) && i + 1 < |pages|
    ensures Mapped(P, mem, pages[i..]) && Mapped(P, mem, pages[i + 2..])
    ensures InMemory(P, mem, pages[i].frame) && InMemory(P, mem, pages[i + 1].frame)
    ensures Flat(P, mem, pages[i..])
         == FrameBytes(P, mem, pages[i].frame) + FrameBytes(P, mem, pages[i + 1].frame) + Flat(P, mem, pages[i + 2..])
  {
    hide FrameBytes;
    FlatHead(P, mem, pages, i);
    FlatHead(P, mem, pages, i + 1);
    var a, b, c := FrameBytes(P, mem, pages[i].frame), FrameBytes(P, mem, pages[i + 1].frame), Flat(P, mem, pages[i + 2..]);
    assert a + (b + c) == a + b + c;
  }

  lemma LaterUntouched(P: nat, mem: seq<byte>, pages: seq<Page>, i: nat, off: nat, data: seq<byte>)
    requires Mapped(P, mem, pages) && NextIsAdjacent(pages, i) && off < P && |data| == P
    ensures InMemory(P, mem, pages[i].frame) && pages[i].frame * P + off + P <= |mem|
    ensures var now := Overlay(mem, pages[i].frame * P + off, data);
            Mapped(P, now, pages[i + 2..]) && Mapped(P, mem, pages[i + 2..])
            && Flat(P, now, pages[i + 2..]) == Flat(P, mem, pages[i + 2..])
  {
    hide FrameBytes, Overlay;
    var f := pages[i].frame;
    SpillIntoNext(P, mem, f, off, data);
    var now := Overlay(mem, f * P + off, data);
    PartMapped(P, mem, pages, i + 2);
    var later := pages[i + 2..];
    forall k | 0 <= k < |later|
      ensures InMemory(P, mem, later[k].frame)
      ensures FrameBytes(P, now, later[k].frame) == FrameBytes(P, mem, later[k].frame)
    {
      SpillFrame(P, mem, f, off, data, later[k].frame);
    }
    FlatUnchanged(P, mem, now, later);
  }

  // ----- every other case fails for some data -----

  /** The first byte of page `k` in the flat bytes. */
  lemma FlatPageStart(P: nat, mem: seq<byte>, pages: seq<Page>, k: nat)
    requires Mapped(P, mem, pages) && k < |pages|
    ensures InMemory(P, mem, pages[k].frame) && Mapped(P, mem, pages[k..])
    ensures k * P < |Flat(P, mem, pages)|
    ensures Flat(P, mem, pages)[k * P] == Flat(P, mem, pages[k..])[0] == FrameBytes(P, mem, pages[k].frame)[0]
  {
    hide FrameBytes;
    FlatSplit(P, mem, pages, k);
    FlatHead(P, mem, pages, k);
  }

  /** What a flat write of `data` puts at the first byte of the next page. */
  lemma WantedAtNextPage(P: nat, mem: seq<byte>, pages: seq<Page>, i: nat, off: nat, data: seq<byte>)
    requires Mapped(P, mem, pages) && i < |pages| && 0 < off < P && off + |data| > P
    requires i * P + off + |data| <= |pages| * P
    ensures i + 1 < |pages| && (i + 1) * P == i * P + P
    ensures Overlay(Flat(P, mem, pages), i * P + off, data)[(i + 1) * P] == data[P - off]
  {
    if i + 1 >= |pages| {
      MulMonotone(P, |pages|, i + 1);
    }
  }

  /** Longer than a page from the middle: the code leaves byte P of the data at the start of the next page. */
  lemma LongWriteAtNextPage(P: nat, mem: seq<byte>, pages: seq<Page>, i: nat, off: nat, data: seq<byte>)
    requires Mapped(P, mem, pages) && i + 1 < |pages| && 0 < off < P && |data| > P
    ensures InMemory(P, mem, pages[i].frame)
    ensures var r := WriteAt(P, mem, pages, pages[i].frame, off, data);
            r.Done? ==> Mapped(P, r.value, pages) && (i + 1) * P < |Flat(P, r.value, pages)|
                        && Flat(P, r.value, pages)[(i + 1) * P] == data[P]
  {
    hide FrameBytes, Overlay, OnNone, WriteChain;
    var f := pages[i].frame;
    var r := WriteAt(P, mem, pages, f, off, data);
    if r.Done? {
      var mid := Overlay(mem, f * P + off, data[..P]);
      MappedStill(P, mem, mid, pages);
      MappedStill(P, mem, r.value, pages);
      WriteChainIsFlat(P, mid, pages, i, data[P..]);
      FlatPageStart(P, r.value, pages, i + 1);
      OverlayFirst(Flat(P, mid, pages[i + 1..]), data[P..]);
    }
  }

  lemma OverlayFirst(s: seq<byte>, w: seq<byte>)
    requires 0 < |w| <= |s|
    ensures Overlay(s, 0, w)[0] == w[0]
  {
  }

  /**
   What a write does that starts in the middle of a page and does not fit it. It is a fault exactly when it is shorter
   than a page, or would run over the end of the memory, or the pages after this one cannot hold what is left; otherwise
   a page's length goes to the bytes in a row from its address on, whosever frame they are, and the rest over the flat
   bytes of the next pages from their start.
   */
  lemma WriteAstray(P: nat, mem: seq<byte>, pages: seq<Page>, i: nat, off: nat, data: seq<byte>)
    requires Mapped(P, mem, pages) && i < |pages| && 0 < off < P && off + |data| > P
    ensures InMemory(P, mem, pages[i].frame) && Mapped(P, mem, pages[i + 1..])
    ensures var f, later := pages[i].frame, pages[i + 1..];
            var r := WriteAt(P, mem, pages, f, off, data);
            && (r.Done? <==> |data| >= P && f * P + off + P <= |mem| && later != []
                             && |data| - P <= |Flat(P, mem, later)|)
            && (r.Done? ==>
                  var spilt := Overlay(mem, f * P + off, data[..P]);
                  && Mapped(P, spilt, later) && Mapped(P, r.value, later)
                  && Flat(P, r.value, later) == Overlay(Flat(P, spilt, later), 0, data[P..])
                  && forall g {:trigger FrameBytes(P, r.value, g)} :: OnNone(later, g) && InMemory(P, mem, g) ==>
                       FrameBytes(P, r.value, g) == FrameBytes(P, spilt, g))
  {
    hide FrameBytes, Overlay, OnNone, WriteChain;
    var f := pages[i].frame;
    PartMapped(P, mem, pages, i + 1);
    if |data| >= P && f * P + off + P <= |mem| {
      var spilt := Overlay(mem, f * P + off, data[..P]);
      MappedStill(P, mem, spilt, pages);
      WriteChainIsFlat(P, spilt, pages, i, data[P..]);
    }
  }

  /** Data that shows a write to be wrong: some byte of it differs from what the code leaves. */
  function Witness(P: nat, mem: seq<byte>, pages: seq<Page>, i: nat, n: nat): (data: seq<byte>)
    requires P > 0 && i + 1 < |pages| && InMemory(P, mem, pages[i + 1].frame)
    ensures |data| == n
  {
    if n > P then seq(n, k => if k == P then 1 else 0)
    else
      var there := FrameBytes(P, mem, pages[i + 1].frame)[0];
      seq(n, k => if there == 0 then 1 else 0)
  }

  lemma WitnessFails(P: nat, mem: seq<byte>, pages: seq<Page>, i: nat, off: nat, n: nat)
    requires Mapped(P, mem, pages) && i < |pages| && off < P
    requires i * P + off + n <= |pages| * P && !WriteRight(P, pages, i, off, n)
    ensures i + 1 < |pages| && InMemory(P, mem, pages[i + 1].frame)
    ensures !ActsFlat(P, mem, pages, i, off, Witness(P, mem, pages, i, n))
  {
    hide FrameBytes, Overlay, OnNone, WriteChain, Flat;
    WantedAtNextPage(P, mem, pages, i, off, seq(n, k => 0));
    var data := Witness(P, mem, pages, i, n);
    WantedAtNextPage(P, mem, pages, i, off, data);
    if n > P {
      LongWriteAtNextPage(P, mem, pages, i, off, data);
    } else if n == P {
      MissedPage(P, mem, pages, i, off, data);
    }
  }

  /** A page's length from the middle of a page: the next page, on a frame elsewhere, is not written. */
  lemma MissedPage(P: nat, mem: seq<byte>, pages: seq<Page>, i: nat, off: nat, data: seq<byte>)
    requires Mapped(P, mem, pages) && i + 1 < |pages| && 0 < off < P && |data| == P
    requires !NextIsAdjacent(pages, i)
    ensures InMemory(P, mem, pages[i].frame) && InMemory(P, mem, pages[i + 1].frame)
    ensures var r := WriteAt(P, mem, pages, pages[i].frame, off, data);
            r.Done? ==> Mapped(P, r.value, pages) && (i + 1) * P < |Flat(P, r.value, pages)|
                        && Flat(P, r.value, pages)[(i + 1) * P] == FrameBytes(P, mem, pages[i + 1].frame)[0]
  {
    hide FrameBytes, Overlay, WriteAt;
    PageLongWrite(P, mem, pages, i, off, data);
    var f, r := pages[i].frame, WriteAt(P, mem, pages, pages[i].frame, off, data);
    if r.Done? {
      MappedStill(P, mem, r.value, pages);
      SpillFrame(P, mem, f, off, data, pages[i + 1].frame);
      FlatPageStart(P, r.value, pages, i + 1);
    }
  }

  /** Exactly when every write of `n` bytes at this place acts as one write on the flat bytes. */
  lemma WriteFlatIff(P: nat, mem: seq<byte>, pages: seq<Page>, i: nat, off: nat, n: nat)
    requires Mapped(P, mem, pages) && i < |pages| && off < P
    requires i * P + off + n <= |pages| * P
    ensures (forall data: seq<byte> :: |data| == n ==> ActsFlat(P, mem, pages, i, off, data))
        <==> WriteRight(P, pages, i, off, n)
  {
    hide ActsFlat, Flat, Mapped;
    if WriteRight(P, pages, i, off, n) {
      forall data: seq<byte> | |data| == n
        ensures ActsFlat(P, mem, pages, i, off, data)
      {
        if off == 0 || off + n <= P {
          WriteIsFlat(P, mem, pages, i, off, data);
        } else {
          LuckyWrite(P, mem, pages, i, off, data);
        }
      }
    } else {
      WitnessFails(P, mem, pages, i, off, n);
    }
  }
}
