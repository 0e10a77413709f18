/**
 A process sees its pages as one flat sequence of bytes. Reads and writes go page by page, finding the
 next page through the frame of the current one; here is exactly when they act on the flat sequence.
 */
module FlatMemory {
  import opened BitStrings
  import opened Paging

  datatype Outcome<T> = Done(value: T) | Fault

  /** The pages lie on frames of the memory, each on its own. */
  ghost predicate Mapped(P: nat, mem: seq<byte>, pages: seq<Page>) {
    && P > 0
    && (forall i :: 0 <= i < |pages| ==> InMemory(P, mem, pages[i].frame))
    && (forall i, j :: 0 <= i < j < |pages| ==> pages[i].frame != pages[j].frame)
  }

  predicate InMemory(P: nat, mem: seq<byte>, f: int) {
    0 <= f && f * P + P <= |mem|
  }

  /** The flat bytes of a list of pages. */
  ghost function Flat(P: nat, mem: seq<byte>, pages: seq<Page>): (r: seq<byte>)
    requires Mapped(P, mem, pages)
    ensures |r| == |pages| * P
  {
    if |pages| == 0 then []
    else
      TailMapped(P, mem, pages);
      assert |pages| * P == P + |pages[1..]| * P;
      FrameBytes(P, mem, pages[0].frame) + Flat(P, mem, pages[1..])
  }

  lemma TailMapped(P: nat, mem: seq<byte>, pages: seq<Page>)
    requires Mapped(P, mem, pages) && |pages| > 0
    ensures Mapped(P, mem, pages[1..])
  {
  }

  lemma PartMapped(P: nat, mem: seq<byte>, pages: seq<Page>, i: nat)
    requires Mapped(P, mem, pages) && i <= |pages|
    ensures Mapped(P, mem, pages[..i]) && Mapped(P, mem, pages[i..])
  {
  }

  lemma {:induction false} FlatSplit(P: nat, mem: seq<byte>, pages: seq<Page>, i: nat)
    requires Mapped(P, mem, pages) && i <= |pages|
    ensures Mapped(P, mem, pages[..i]) && Mapped(P, mem, pages[i..])
    ensures Flat(P, mem, pages) == Flat(P, mem, pages[..i]) + Flat(P, mem, pages[i..])
  {
    hide FrameBytes;
    PartMapped(P, mem, pages, i);
    if i > 0 {
      TailMapped(P, mem, pages);
      FlatSplit(P, mem, pages[1..], i - 1);
      assert pages[1..][..i - 1] == pages[..i][1..];
      assert pages[1..][i - 1..] == pages[i..];
      PartMapped(P, mem, pages[1..], i - 1);
    } else {
      assert pages[0..] == pages && pages[..0] == [];
    }
  }

  lemma FlatHead(P: nat, mem: seq<byte>, pages: seq<Page>, i: nat)
    requires Mapped(P, mem, pages) && i < |pages|
    ensures Mapped(P, mem, pages[i..]) && Mapped(P, mem, pages[i + 1..])
    ensures InMemory(P, mem, pages[i].frame)
    ensures Flat(P, mem, pages[i..]) == FrameBytes(P, mem, pages[i].frame) + Flat(P, mem, pages[i + 1..])
  {
    hide FrameBytes;
    PartMapped(P, mem, pages, i);
    PartMapped(P, mem, pages, i + 1);
    assert pages[i..][1..] == pages[i + 1..];
  }

  /** The frame of the page after the one that lies on `frame`; -1 where the code finds no page. */
  function NextFrame(pages: seq<Page>, frame: int): (r: int) {
    if |pages| == 0 then -1
    else if pages[0].frame == frame then (if |pages| > 1 then pages[1].frame else -1)
    else NextFrame(pages[1..], frame)
  }

  lemma {:induction false} NextFrameIsNext(P: nat, mem: seq<byte>, pages: seq<Page>, i: nat)
    requires Mapped(P, mem, pages) && i < |pages|
    ensures NextFrame(pages, pages[i].frame) == if i + 1 < |pages| then pages[i + 1].frame else -1
  {
    if i > 0 {
      TailMapped(P, mem, pages);
      NextFrameIsNext(P, mem, pages[1..], i - 1);
    }
  }

  // ----- reading -----

  /** The bytes after the first page: full pages, then what is left over. */
  function ReadChain(P: nat, mem: seq<byte>, pages: seq<Page>, frame: int, n: nat): (r: Outcome<seq<byte>>)
    requires P > 0
    decreases n
  {
    if n == 0 then Done([])
    else
      var next := NextFrame(pages, frame);
      if !InMemory(P, mem, next) then Fault
      else if n < P then Done(FrameBytes(P, mem, next)[..n])
      else
        var rest := ReadChain(P, mem, pages, next, n - P);
        if rest.Fault? then Fault else Done(FrameBytes(P, mem, next) + rest.value)
  }

  /**
   A read of `n` bytes at offset `off` of `frame`. From the middle of a page the code copies to the end of
   the page whatever `n` is, so a shorter read ends in a copy of negative length.
   */
  function ReadAt(P: nat, mem: seq<byte>, pages: seq<Page>, frame: int, off: nat, n: nat): (r: Outcome<seq<byte>>)
    requires off < P && InMemory(P, mem, frame)
  {
    if off != 0 && off + n < P then Fault
    else if off == 0 && n <= P then Done(FrameBytes(P, mem, frame)[..n])
    else
      var rest := ReadChain(P, mem, pages, frame, n - (P - off));
      if rest.Fault? then Fault else Done(FrameBytes(P, mem, frame)[off..] + rest.value)
  }

  /** A slice of two sequences in a row that starts in the first. */
  lemma MiddleOfTwo(h: seq<byte>, t: seq<byte>, off: nat, n: nat)
    requires off <= |h|
    ensures off + n <= |h| ==> (h + t)[off..off + n] == h[off..off + n]
    ensures |h| <= off + n <= |h + t| ==> (h + t)[off..off + n] == h[off..] + t[..off + n - |h|]
  {
  }

  lemma {:induction false} ReadChainIsFlat(P: nat, mem: seq<byte>, pages: seq<Page>, i: nat, n: nat)
    requires Mapped(P, mem, pages) && i < |pages|
    ensures Mapped(P, mem, pages[i + 1..])
    ensures var flat := Flat(P, mem, pages[i + 1..]);
            ReadChain(P, mem, pages, pages[i].frame, n) == if n <= |flat| then Done(flat[..n]) else Fault
    decreases n
  {
    hide FrameBytes;
    PartMapped(P, mem, pages, i + 1);
    NextFrameIsNext(P, mem, pages, i);
    if i + 1 == |pages| {
      assert pages[i + 1..] == [];
    } else {
      FlatHead(P, mem, pages, i + 1);
      var h, t := FrameBytes(P, mem, pages[i + 1].frame), Flat(P, mem, pages[i + 2..]);
      MiddleOfTwo(h, t, 0, n);
      if n >= P {
        ReadChainIsFlat(P, mem, pages, i + 1, n - P);
      }
    }
  }

  /** The offsets and lengths the read is right for; nothing else is. */
  predicate ReadRight(P: nat, off: nat, n: nat) {
    off == 0 || off + n >= P
  }

  /**
   A read from page `i` returns exactly the logical slice when its offset and length are right and it
   stays inside the process, and is a fault in every other case.
   */
  lemma ReadIsFlat(P: nat, mem: seq<byte>, pages: seq<Page>, i: nat, off: nat, n: nat)
    requires Mapped(P, mem, pages) && i < |pages| && off < P
    ensures InMemory(P, mem, pages[i].frame)
    ensures var la := i * P + off;
            ReadAt(P, mem, pages, pages[i].frame, off, n)
            == if ReadRight(P, off, n) && la + n <= |Flat(P, mem, pages)|
               then Done(Flat(P, mem, pages)[la..la + n]) else Fault
  {
    hide FrameBytes;
    FlatSplit(P, mem, pages, i);
    FlatHead(P, mem, pages, i);
    if off + n >= P {
      ReadChainIsFlat(P, mem, pages, i, n - (P - off));
    }
    MiddleOfTwo(FrameBytes(P, mem, pages[i].frame), Flat(P, mem, pages[i + 1..]), off, n);
    var head, tail := Flat(P, mem, pages[..i]), Flat(P, mem, pages[i..]);
    assert |head| == i * P;
    SliceOfTail(head, tail, off, n);
  }

  lemma SliceOfTail(head: seq<byte>, tail: seq<byte>, off: nat, n: nat)
    ensures |head| + off + n <= |head + tail| <==> off + n <= |tail|
    ensures off + n <= |tail| ==> (head + tail)[|head| + off..|head| + off + n] == tail[off..off + n]
  {
  }
}
