/**
 Exactly which files keep their bytes through a compaction, from the disk before it. The slides before a file's
 own can change one byte of the place it goes to, the first.
 */
module CompactionExact {
  import opened BitStrings
  import opened DiskModel
  import opened Moves
  import opened Compaction

  // ----- what the earlier slides leave -----

  /** A slide ends at most one byte into the blocks after it. */
  lemma SlideEnds(d: Disk, order: seq<string>, i: nat)
    requires Ready(d, order) && Names(d, order) && i < |order|
    ensures d.bs > 0
    ensures StartBit(d.bs, Pos(d, order, i)) + 8 * Nth(d, order, i).size <= StartBit(d.bs, Pos(d, order, i + 1))
  {
    hide Ready, Names, StartBit, BlocksPerBits;
    NthPlaced(d, order, i);
    BlocksHoldBytes(Nth(d, order, i).size, d.bs);
    StartBitAdd(d.bs, Pos(d, order, i), Blocks(d, Nth(d, order, i)));
  }

  /** From one byte after the place of file `j` on, nothing changes before its slide. */
  lemma {:induction false} AboveUnchanged(d: Disk, order: seq<string>, i: nat, j: nat, lo: nat, hi: nat)
    requires Ready(d, order) && Names(d, order) && i <= j < |order| && d.bs > 0
    requires StartBit(d.bs, Pos(d, order, j)) + 8 <= lo <= hi <= |d.blocks|
    ensures Compacted(d, order, i).blocks[lo..hi] == d.blocks[lo..hi]
    decreases i
  {
    hide Ready, Names, StartBit, BlocksPerBits, Slide, Pos, Nth;
    if i > 0 {
      AboveUnchanged(d, order, i - 1, j, lo, hi);
      SlideReady(d, order, i - 1);
      SlideEnds(d, order, i - 1);
      PosMonotone(d, order, i, j);
      StartBitMonotone(d.bs, Pos(d, order, i), Pos(d, order, j));
      SlideFrame(Compacted(d, order, i - 1), order[i - 1], Nth(d, order, i - 1), Pos(d, order, i - 1), lo, hi);
      OneCompacted(d, order, i - 1);
    }
  }

  /** The file itself, and the byte after it, are as they were. */
  lemma OwnUnchanged(d: Disk, order: seq<string>, j: nat)
    requires Ready(d, order) && Names(d, order) && j < |order| && Nth(d, order, j).block != Pos(d, order, j)
    ensures WellFormed(d) && Placed(d, Nth(d, order, j)) && WellFormed(Compacted(d, order, j))
    ensures var c, f := Compacted(d, order, j), Nth(d, order, j);
            Bytes(c, f) == Bytes(d, f) && Stray(c, f) == Stray(d, f)
  {
    hide Ready, Names, StartBit, BlocksPerBits, Slide, Content, Decode, Value;
    NthPlaced(d, order, j);
    PosBound(d, order, j, j);
    WaitingContent(d, order, j, j);
    var f := Nth(d, order, j);
    ContentInRange(d, f);
    StartBitMonotone(d.bs, Pos(d, order, j), f.block);
    var lo := StartBit(d.bs, f.block) + 8 * f.size;
    AboveUnchanged(d, order, j, j, lo, lo + 8);
  }

  // ----- the destination -----

  /** The slide of the file at place `i` writes the first byte of the block after it: the file moves and spills over. */
  ghost predicate SlideSpills(d: Disk, order: seq<string>, i: nat)
    requires Names(d, order) && i < |order| && WellFormed(d) && Placed(d, Nth(d, order, i))
  {
    Nth(d, order, i).block != Pos(d, order, i) && Spills(d, Nth(d, order, i))
  }

  /** What lies at the place of file `j` when its turn comes. */
  ghost function Destination(d: Disk, order: seq<string>, j: nat): (there: seq<byte>)
    requires Ready(d, order) && Names(d, order) && j < |order| && WellFormed(d)
    requires Placed(d, Rest(d, order, j))
    requires j > 0 ==> Placed(d, Nth(d, order, j - 1))
  {
    var there := Bytes(d, Rest(d, order, j));
    if there != [] && j > 0 && SlideSpills(d, order, j - 1) then there[0 := Stray(d, Nth(d, order, j - 1))] else there
  }

  /** The first byte of the place of file `j`, when its turn comes. */
  lemma FirstByteThere(d: Disk, order: seq<string>, j: nat)
    requires Ready(d, order) && Names(d, order) && 0 < j < |order| && d.bs > 0
    requires StartBit(d.bs, Pos(d, order, j)) + 8 <= |d.blocks|
    ensures WellFormed(d) && Placed(d, Nth(d, order, j - 1))
    ensures var at := StartBit(d.bs, Pos(d, order, j));
            Value(Compacted(d, order, j).blocks[at..at + 8])
            == if SlideSpills(d, order, j - 1) then Stray(d, Nth(d, order, j - 1)) as int
               else Value(d.blocks[at..at + 8])
  {
    hide Ready, Names, StartBit, BlocksPerBits, Value, Slide, Pos, Nth, Bytes, Stray, Compacted, Relocate;
    var i := j - 1;
    var at, c, f, p := StartBit(d.bs, Pos(d, order, j)), Compacted(d, order, i), Nth(d, order, i), Pos(d, order, i);
    NthPlaced(d, order, i);
    OneCompacted(d, order, i);
    SlideReady(d, order, i);
    SlideEnds(d, order, i);
    StartBitMonotone(d.bs, p, Pos(d, order, j));
    StartBitMonotone(d.bs, Pos(d, order, j), Pos(d, order, j));
    StartBitAdd(d.bs, p, Blocks(d, f));
    AboveUnchanged(d, order, i, i, at, at + 8);
    SlideIs(c, order[i], f, p);
    if f.block != p {
      OwnUnchanged(d, order, i);
      SlideFiles(c, order[i], f, p);
      ByteAfterMove(c, order[i], p, f.size, at);
    }
  }

  lemma SlideIs(d: Disk, name: string, f: File, p: nat)
    ensures Slide(d, name, f, p) == if f.block == p then d else Relocate(d, name, p, f.size)
  {
  }

  lemma DestinationIs(d: Disk, order: seq<string>, j: nat)
    requires Ready(d, order) && Names(d, order) && j < |order|
    ensures WellFormed(d) && WellFormed(Compacted(d, order, j)) && Placed(d, Rest(d, order, j))
    ensures j > 0 ==> Placed(d, Nth(d, order, j - 1))
    ensures Bytes(Compacted(d, order, j), Rest(d, order, j)) == Destination(d, order, j)
  {
    hide Ready, Names, StartBit, BlocksPerBits, Value, Decode, Slide, Stray, SlideSpills, Content;
    RestPlaced(d, order, j);
    CompactedFile(d, order, j, j);
    var c, g := Compacted(d, order, j), Rest(d, order, j);
    if j > 0 {
      NthPlaced(d, order, j - 1);
    }
    if g.size > 0 {
      FirstApart(d, g);
      FirstApart(c, g);
      var at := StartBit(d.bs, g.block);
      AboveUnchanged(d, order, j, j, at + 8, at + 8 * g.size);
      if j > 0 {
        FirstByteThere(d, order, j);
      }
    }
  }

  /** What can be checked on the disk before the call: the file is in place, or survives its move. */
  ghost predicate KeepsBytes(d: Disk, order: seq<string>, j: nat)
    requires Ready(d, order) && Names(d, order) && j < |order| && WellFormed(d)
    requires Placed(d, Nth(d, order, j)) && Placed(d, Rest(d, order, j))
    requires j > 0 ==> Placed(d, Nth(d, order, j - 1))
  {
    var f := Nth(d, order, j);
    f.block == Pos(d, order, j) || Survives(Bytes(d, f), Stray(d, f), Destination(d, order, j))
  }

  /** Exactly when compaction keeps the bytes of the file at place `j`, from the disk before the call. */
  lemma CompactionKeepsBytesIff(d: Disk, order: seq<string>, j: nat)
    requires Ready(d, order) && Names(d, order) && j < |order|
    ensures WellFormed(d) && WellFormed(Compact(d, order))
    ensures Placed(d, Nth(d, order, j)) && Placed(d, Rest(d, order, j))
    ensures j > 0 ==> Placed(d, Nth(d, order, j - 1))
    ensures Bytes(Compact(d, order), Rest(d, order, j)) == Bytes(d, Nth(d, order, j)) <==> KeepsBytes(d, order, j)
  {
    hide Ready, Names, StartBit, BlocksPerBits, Destination, Survives, Stray, Bytes, Compact;
    KeepsIffSlideKeeps(d, order, j);
    DestinationIs(d, order, j);
    if Nth(d, order, j).block != Pos(d, order, j) {
      OwnUnchanged(d, order, j);
    }
  }
}
