/**
 Compaction: the files are slid down one by one, in the order of their first blocks. From a laid-out
 disk every slide is defined, the files end packed from block 0 in the same order, the bitmap loses
 exactly the blocks the files gave up, and every file without zero bytes keeps its bytes.
 */
module Compaction {
  import opened BitStrings
  import opened DiskModel
  import opened Moves

  // ----- one slide -----

  predicate SlideOk(d: Disk, name: string, f: File, p: nat) {
    WellFormed(d) && name in d.files && d.files[name] == f && Placed(d, f) && p <= f.block
  }

  lemma SlideFiles(d: Disk, name: string, f: File, p: nat)
    requires SlideOk(d, name, f, p)
    ensures CanMove(d, name, p, f.size)
    ensures WellFormed(Slide(d, name, f, p)) && Placed(d, File(p, f.size))
    ensures Slide(d, name, f, p).files == d.files[name := File(p, f.size)]
  {
    hide StartBit, BlocksPerBits, ReadText, SetRange, Overlay, Encode;
  }

  lemma SlideBit(d: Disk, name: string, f: File, p: nat, x: nat)
    requires SlideOk(d, name, f, p) && x < |d.bitmap|
    requires Inside(d, f, x) ==> d.bitmap[x]
    ensures Slide(d, name, f, p).bitmap[x] <==> p <= x < p + Blocks(d, f) || (d.bitmap[x] && !Inside(d, f, x))
  {
    hide StartBit, BlocksPerBits, ReadText, Overlay, Encode;
  }

  lemma SlideFrame(d: Disk, name: string, f: File, p: nat, lo: nat, hi: nat)
    requires SlideOk(d, name, f, p) && lo <= hi <= |d.blocks|
    requires hi <= StartBit(d.bs, p) || f.block == p || StartBit(d.bs, p) + 8 * (f.size + 1) <= lo
    ensures Slide(d, name, f, p).blocks[lo..hi] == d.blocks[lo..hi]
  {
    hide StartBit, BlocksPerBits, Relocate;
    if f.block != p {
      MoveFrame(d, name, p, f.size, lo, hi);
    }
  }

  lemma SlideContent(d: Disk, name: string, f: File, p: nat)
    requires SlideOk(d, name, f, p)
    requires f.block == p || ZeroFree(Bytes(d, f))
    ensures WellFormed(Slide(d, name, f, p)) && Placed(Slide(d, name, f, p), File(p, f.size))
    ensures Content(Slide(d, name, f, p), File(p, f.size)) == Content(d, f)
  {
    hide StartBit, BlocksPerBits, Relocate, Content;
    SlideFiles(d, name, f, p);
    if f.block != p {
      MoveKeepsZeroFree(d, name, p, f.size);
    }
  }

  // ----- the listing -----

  ghost predicate Ready(d: Disk, order: seq<string>) {
    Laid(d) && IsListing(d.files, order)
  }

  lemma ReadyNames(d: Disk, order: seq<string>)
    requires Ready(d, order)
    ensures WellFormed(d) && Names(d, order)
  {
  }

  lemma NthPlaced(d: Disk, order: seq<string>, i: nat)
    requires Ready(d, order) && i < |order|
    ensures WellFormed(d) && Names(d, order) && order[i] in d.files && Placed(d, Nth(d, order, i))
  {
  }

  lemma EarlierEndsFirst(d: Disk, order: seq<string>, i: nat, j: nat)
    requires Ready(d, order) && Names(d, order) && i < j < |order|
    ensures order[i] != order[j]
    ensures Nth(d, order, i).block + Blocks(d, Nth(d, order, i)) <= Nth(d, order, j).block
  {
    assert Apart(d, d.files[order[i]], d.files[order[j]]);
  }

  /** No file ever has to slide up. */
  lemma {:induction false} PosBound(d: Disk, order: seq<string>, i: nat, j: nat)
    requires Ready(d, order) && Names(d, order) && i <= j <= |order|
    ensures j < |order| ==> Pos(d, order, i) <= Nth(d, order, j).block
    ensures Pos(d, order, i) <= |d.bitmap|
    decreases i
  {
    hide Ready, Names;
    if j < |order| {
      NthPlaced(d, order, j);
    }
    if i > 0 {
      PosBound(d, order, i - 1, i - 1);
      NthPlaced(d, order, i - 1);
      if j < |order| {
        EarlierEndsFirst(d, order, i - 1, j);
      }
    }
  }

  lemma {:induction false} PosMonotone(d: Disk, order: seq<string>, i: nat, j: nat)
    requires Names(d, order) && i <= j <= |order|
    ensures Pos(d, order, i) <= Pos(d, order, j)
    ensures i < j ==> Pos(d, order, i) + Blocks(d, Nth(d, order, i)) <= Pos(d, order, j)
    decreases j
  {
    hide Names;
    if i < j {
      PosMonotone(d, order, i, j - 1);
    }
  }

  /** Where the file at place `j` rests once it has been slid. */
  function Rest(d: Disk, order: seq<string>, j: nat): (f: File)
    requires Names(d, order) && j < |order|
  {
    File(Pos(d, order, j), Nth(d, order, j).size)
  }

  // ----- the records -----

  /** Every slide is defined. */
  lemma {:induction false} SlideReady(d: Disk, order: seq<string>, i: nat)
    requires Ready(d, order) && Names(d, order) && i < |order|
    ensures SlideOk(Compacted(d, order, i), order[i], Nth(d, order, i), Pos(d, order, i))
    decreases i, 1
  {
    hide Ready, Names, StartBit, BlocksPerBits;
    CompactedFile(d, order, i, i);
    NthPlaced(d, order, i);
    PosBound(d, order, i, i);
  }

  /** The record at place `j` after `i` slides. */
  lemma {:induction false} CompactedFile(d: Disk, order: seq<string>, i: nat, j: nat)
    requires Ready(d, order) && Names(d, order) && i <= |order| && j < |order|
    ensures order[j] in d.files && WellFormed(Compacted(d, order, i))
    ensures Compacted(d, order, i).files[order[j]] == if j < i then Rest(d, order, j) else Nth(d, order, j)
    decreases i, 0
  {
    hide Ready, Names, StartBit, BlocksPerBits, Slide;
    NthPlaced(d, order, j);
    if i > 0 {
      CompactedFile(d, order, i - 1, j);
      SlideReady(d, order, i - 1);
      SlideFiles(Compacted(d, order, i - 1), order[i - 1], Nth(d, order, i - 1), Pos(d, order, i - 1));
      if j < i - 1 {
        EarlierEndsFirst(d, order, j, i - 1);
      } else if i - 1 < j {
        EarlierEndsFirst(d, order, i - 1, j);
      }
    }
  }

  // ----- the bitmap -----

  /** Block `x` belonged to one of the first `i` files of the listing. */
  predicate InFirst(d: Disk, order: seq<string>, i: nat, x: int)
    requires Names(d, order) && i <= |order|
    decreases i
  {
    i > 0 && (Inside(d, Nth(d, order, i - 1), x) || InFirst(d, order, i - 1, x))
  }

  lemma {:induction false} InFirstBelow(d: Disk, order: seq<string>, i: nat, j: nat, x: int)
    requires Ready(d, order) && Names(d, order) && i <= j < |order|
    requires InFirst(d, order, i, x)
    ensures x < Nth(d, order, j).block
    decreases i
  {
    hide Ready, Names;
    ReadyNames(d, order);
    EarlierEndsFirst(d, order, i - 1, j);
    if !Inside(d, Nth(d, order, i - 1), x) {
      InFirstBelow(d, order, i - 1, j, x);
    }
  }

  lemma {:induction false} InFirstOwned(d: Disk, order: seq<string>, i: nat, x: int)
    requires Names(d, order) && i <= |order|
    ensures InFirst(d, order, i, x) <==> exists j :: 0 <= j < i && Inside(d, Nth(d, order, j), x)
    decreases i
  {
    if i > 0 {
      InFirstOwned(d, order, i - 1, x);
    }
  }

  lemma OwnBitSet(d: Disk, order: seq<string>, i: nat, x: nat)
    requires Ready(d, order) && Names(d, order) && i < |order| && x < |d.bitmap|
    ensures Inside(d, Nth(d, order, i), x) ==> d.bitmap[x]
  {
    assert order[i] in d.files;
  }

  /** The bitmap after `i` slides, block by block. */
  lemma {:induction false} CompactedBit(d: Disk, order: seq<string>, i: nat, x: nat)
    requires Ready(d, order) && Names(d, order) && i <= |order| && x < |d.bitmap|
    ensures Compacted(d, order, i).bitmap[x]
        <==> x < Pos(d, order, i) || (d.bitmap[x] && !InFirst(d, order, i, x))
    decreases i
  {
    hide Ready, Names, StartBit, BlocksPerBits, Slide;
    if i > 0 {
      CompactedBit(d, order, i - 1, x);
      SlideReady(d, order, i - 1);
      PosBound(d, order, i - 1, i - 1);
      OwnBitSet(d, order, i - 1, x);
      if InFirst(d, order, i - 1, x) {
        InFirstBelow(d, order, i - 1, i - 1, x);
      }
      SlideBit(Compacted(d, order, i - 1), order[i - 1], Nth(d, order, i - 1), Pos(d, order, i - 1), x);
    }
  }

  lemma OneCompacted(d: Disk, order: seq<string>, i: nat)
    requires Names(d, order) && i < |order|
    ensures Compacted(d, order, i + 1) == Slide(Compacted(d, order, i), order[i], Nth(d, order, i), Pos(d, order, i))
    ensures Pos(d, order, i + 1) == Pos(d, order, i) + BlocksPerBits(Nth(d, order, i).size, d.bs)
  {
    hide BlocksPerBits, Slide;
  }

  // ----- the contents -----

  /** A slide stays below every file still waiting. */
  lemma SlideStaysBelow(d: Disk, order: seq<string>, i: nat, j: nat)
    requires Ready(d, order) && Names(d, order) && i < j < |order|
    requires Pos(d, order, i) < Nth(d, order, i).block
    ensures StartBit(d.bs, Pos(d, order, i)) + 8 * (Nth(d, order, i).size + 1)
         <= StartBit(d.bs, Nth(d, order, j).block)
  {
    hide Ready, Names, StartBit, BlocksPerBits, Pos, Nth;
    EarlierEndsFirst(d, order, i, j);
    NthPlaced(d, order, i);
    OneByteOver(d.bs, Pos(d, order, i), Nth(d, order, i).size, Nth(d, order, j).block);
  }

  lemma OneByteOver(bs: nat, p: nat, size: nat, block: nat)
    requires 0 < bs <= LIMIT && size < LIMIT && p + BlocksPerBits(size, bs) < block
    ensures StartBit(bs, p) + 8 * (size + 1) <= StartBit(bs, block)
  {
    hide StartBit, BlocksPerBits;
    var k := BlocksPerBits(size, bs);
    BlocksHoldBytes(size, bs);
    StartBitAdd(bs, p, k);
    StartBitMonotone(bs, p + k, block);
  }

  /** Contents of a file still to be slid are untouched. */
  lemma {:induction false} WaitingContent(d: Disk, order: seq<string>, i: nat, j: nat)
    requires Ready(d, order) && Names(d, order) && i <= j < |order|
    ensures WellFormed(d) && Placed(d, Nth(d, order, j)) && WellFormed(Compacted(d, order, i))
    ensures Content(Compacted(d, order, i), Nth(d, order, j)) == Content(d, Nth(d, order, j))
    decreases i
  {
    hide Ready, Names, StartBit, BlocksPerBits, Slide;
    NthPlaced(d, order, j);
    CompactedFile(d, order, i, j);
    if i > 0 {
      WaitingContent(d, order, i - 1, j);
      SlideReady(d, order, i - 1);
      var g, f, p := Nth(d, order, j), Nth(d, order, i - 1), Pos(d, order, i - 1);
      if f.block != p {
        SlideStaysBelow(d, order, i - 1, j);
      }
      ContentInRange(d, g);
      SlideFrame(Compacted(d, order, i - 1), order[i - 1], f, p,
                 StartBit(d.bs, g.block), StartBit(d.bs, g.block) + 8 * g.size);
    }
  }

  lemma RestPlaced(d: Disk, order: seq<string>, j: nat)
    requires Ready(d, order) && Names(d, order) && j < |order|
    ensures WellFormed(d) && Placed(d, Rest(d, order, j))
  {
    hide Ready, Names, StartBit, BlocksPerBits;
    PosBound(d, order, j, j);
    NthPlaced(d, order, j);
  }

  /** Bytes of a file that came to rest before slide `i` are not written again. */
  lemma RestingContent(d: Disk, order: seq<string>, j: nat, i: nat)
    requires Ready(d, order) && Names(d, order) && j < i < |order|
    ensures WellFormed(Compacted(d, order, i)) && WellFormed(Compacted(d, order, i + 1))
    ensures Placed(d, Rest(d, order, j))
    ensures Content(Compacted(d, order, i + 1), Rest(d, order, j)) == Content(Compacted(d, order, i), Rest(d, order, j))
  {
    hide Ready, Names, StartBit, BlocksPerBits, Slide;
    CompactedFile(d, order, i, i);
    CompactedFile(d, order, i + 1, i);
    RestPlaced(d, order, j);
    SlideReady(d, order, i);
    var c, g, p := Compacted(d, order, i), Rest(d, order, j), Pos(d, order, i);
    PosMonotone(d, order, j, i);
    ContentInRange(c, g);
    StartBitMonotone(d.bs, g.block + Blocks(d, g), p);
    SlideFrame(c, order[i], Nth(d, order, i), p, StartBit(d.bs, g.block), StartBit(d.bs, g.block) + 8 * g.size);
  }

  /** Once slid, a file is not written again. */
  lemma {:induction false} SlidStays(d: Disk, order: seq<string>, j: nat, i: nat)
    requires Ready(d, order) && Names(d, order) && j < i <= |order|
    ensures Placed(d, Rest(d, order, j)) && WellFormed(Compacted(d, order, i)) && WellFormed(Compacted(d, order, j + 1))
    ensures Content(Compacted(d, order, i), Rest(d, order, j)) == Content(Compacted(d, order, j + 1), Rest(d, order, j))
    decreases i
  {
    hide Ready, Names, StartBit, BlocksPerBits, Content;
    RestPlaced(d, order, j);
    CompactedFile(d, order, i, j);
    CompactedFile(d, order, j + 1, j);
    if i > j + 1 {
      SlidStays(d, order, j, i - 1);
      RestingContent(d, order, j, i - 1);
    }
  }

  /** The file at place `j` lies in place already, or none of its bytes is zero. */
  ghost predicate Safe(d: Disk, order: seq<string>, j: nat)
    requires Names(d, order) && j < |order|
    requires WellFormed(d) && Placed(d, Nth(d, order, j))
  {
    Nth(d, order, j).block == Pos(d, order, j) || ZeroFree(Bytes(d, Nth(d, order, j)))
  }

  lemma SlidContent(d: Disk, order: seq<string>, j: nat, i: nat)
    requires Ready(d, order) && Names(d, order) && j < i <= |order|
    requires WellFormed(d) && Placed(d, Nth(d, order, j)) && Safe(d, order, j)
    ensures Placed(d, Rest(d, order, j)) && WellFormed(Compacted(d, order, i))
    ensures Content(Compacted(d, order, i), Rest(d, order, j)) == Content(d, Nth(d, order, j))
  {
    hide Ready, Names, StartBit, BlocksPerBits, Slide, Content;
    SlidStays(d, order, j, i);
    SlideReady(d, order, j);
    WaitingContent(d, order, j, j);
    assert Bytes(Compacted(d, order, j), Nth(d, order, j)) == Bytes(d, Nth(d, order, j));
    SlideContent(Compacted(d, order, j), order[j], Nth(d, order, j), Pos(d, order, j));
  }

  // ----- the whole compaction -----

  /** The disk after compaction. */
  function Compact(d: Disk, order: seq<string>): (r: Disk)
    requires Names(d, order)
    ensures r.bs == d.bs && |r.bitmap| == |d.bitmap| && |r.blocks| == |d.blocks| && r.files.Keys == d.files.Keys
  {
    Compacted(d, order, |order|)
  }

  function Total(d: Disk, order: seq<string>): (n: nat)
    requires Names(d, order)
  {
    Pos(d, order, |order|)
  }

  /**
   Compaction preserves meaning. The file at any place of the listing keeps its size and is packed
   against its predecessors, and if it lay in place or has no zero byte it keeps its bytes.
   */
  lemma CompactionPreserves(d: Disk, order: seq<string>, j: nat)
    requires Ready(d, order) && Names(d, order) && j < |order|
    ensures WellFormed(Compact(d, order)) && Compact(d, order).files.Keys == d.files.Keys && order[j] in d.files
    ensures Compact(d, order).files[order[j]] == File(Pos(d, order, j), Nth(d, order, j).size)
    ensures WellFormed(d) && Placed(d, Nth(d, order, j)) && Placed(d, Rest(d, order, j))
    ensures Safe(d, order, j) ==>
              Content(Compact(d, order), Rest(d, order, j)) == Content(d, Nth(d, order, j))
  {
    hide Ready, Names, StartBit, BlocksPerBits, Content, Safe;
    CompactedFile(d, order, |order|, j);
    NthPlaced(d, order, j);
    RestPlaced(d, order, j);
    if Safe(d, order, j) {
      SlidContent(d, order, j, |order|);
    }
  }

  /** Exactly when compaction keeps the bytes of the file at place `j`, from the disk as its slide finds it. */
  lemma KeepsIffSlideKeeps(d: Disk, order: seq<string>, j: nat)
    requires Ready(d, order) && Names(d, order) && j < |order|
    ensures WellFormed(d) && WellFormed(Compact(d, order)) && WellFormed(Compacted(d, order, j))
    ensures Placed(d, Nth(d, order, j)) && Placed(d, Rest(d, order, j))
    ensures var c, f := Compacted(d, order, j), Nth(d, order, j);
            Bytes(Compact(d, order), Rest(d, order, j)) == Bytes(d, f)
            <==> f.block == Pos(d, order, j) || Survives(Bytes(c, f), Stray(c, f), Bytes(c, Rest(d, order, j)))
  {
    hide Ready, Names, StartBit, BlocksPerBits, Content, Slide, Survives, Stray, Decode, Relocate;
    NthPlaced(d, order, j);
    SlidStays(d, order, j, |order|);
    SlideReady(d, order, j);
    WaitingContent(d, order, j, j);
    SlideKeepsIff(Compacted(d, order, j), order[j], Nth(d, order, j), Pos(d, order, j));
  }

  lemma SlideKeepsIff(d: Disk, name: string, f: File, p: nat)
    requires SlideOk(d, name, f, p)
    ensures WellFormed(d) && Placed(d, f) && Placed(d, File(p, f.size)) && WellFormed(Slide(d, name, f, p))
    ensures Bytes(Slide(d, name, f, p), File(p, f.size)) == Bytes(d, f)
        <==> f.block == p || Survives(Bytes(d, f), Stray(d, f), Bytes(d, File(p, f.size)))
  {
    hide StartBit, BlocksPerBits, Relocate, Content, Survives, Stray, Decode;
    SlideFiles(d, name, f, p);
    if f.block != p {
      MoveKeepsBytesIff(d, name, p, f.size);
    }
  }

  lemma OwnedIsInFirst(d: Disk, order: seq<string>, x: nat)
    requires Ready(d, order) && Names(d, order)
    ensures Owned(d, x) <==> InFirst(d, order, |order|, x)
  {
    InFirstOwned(d, order, |order|, x);
    if Owned(d, x) {
      var n :| n in d.files && Inside(d, d.files[n], x);
      var j :| 0 <= j < |order| && order[j] == n;
      assert Inside(d, Nth(d, order, j), x);
    }
  }

  /** After compaction a block is taken iff it is below the total, or was taken without an owner. */
  lemma CompactionBitmap(d: Disk, order: seq<string>, x: nat)
    requires Ready(d, order) && Names(d, order) && x < |d.bitmap|
    ensures Total(d, order) <= |d.bitmap|
    ensures Compact(d, order).bitmap[x] <==> x < Total(d, order) || (d.bitmap[x] && !Owned(d, x))
  {
    hide Ready, Names, Owned;
    PosBound(d, order, |order|, |order|);
    CompactedBit(d, order, |order|, x);
    OwnedIsInFirst(d, order, x);
  }
}
