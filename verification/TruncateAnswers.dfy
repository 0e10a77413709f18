/**
 What a truncate answers and leaves, in every branch and from the disk before the call: when it answers 0, and after
 it every bit of the bitmap and every record.
 */
module TruncateAnswers {
  import opened DiskModel
  import opened Compaction
  import opened DiskOps
  import opened Truncate
  import opened Extension
  import opened TruncateOutcome

  /** No block is free. */
  predicate Full(d: Disk) {
    forall x :: 0 <= x < |d.bitmap| ==> d.bitmap[x]
  }

  /**
   What makes a truncate fail: there is no such file; or it has no block yet and there is none for it; or its blocks
   are not enough where it is, it can be moved, and after compaction there is no room for the extension.
   */
  ghost predicate Refuses(d: Disk, name: string, newSize: nat)
    requires name in d.files ==> Known(d, name)
  {
    || name !in d.files
    || (d.files[name].block < 0 && Full(d))
    || (Compacts(d, name, newSize) && (RootedPlaced(d, name); !Extends(Rooted(d, name), name, newSize)))
  }

  /** A truncate answers 0 or 1, and 0 exactly when something makes it fail; without a target it answers 1. */
  lemma TruncateAnswersIff(d: Disk, name: string, newSize: nat, order: seq<string>)
    requires name in d.files ==> Callable(d, name, newSize, order)
    requires Compacts(d, name, newSize) ==>
               Names(AtTarget(d, name), order) && HasRoot(Compact(AtTarget(d, name), order), name)
    ensures var r := Truncated(d, name, newSize, order).1;
            (r == 0 || r == 1) && (r == 0 <==> Refuses(d, name, newSize))
  {
    hide StartBit, BlocksPerBits, Allotted, Relocate, Compact, IsListing, Names, Extends, Resized, FitsInPlace, Target;
    if name in d.files {
      RootedPlaced(d, name);
      if Compacts(d, name, newSize) {
        CompactingReportsIff(d, name, newSize, order);
        NoRootNoCompaction(d, name, newSize);
      }
    }
  }

  /** A file that compacts has a block, or one was free for it. */
  lemma NoRootNoCompaction(d: Disk, name: string, newSize: nat)
    requires name in d.files && Known(d, name) && Compacts(d, name, newSize)
    ensures HasRoot(Rooted(d, name), name) && !(d.files[name].block < 0 && Full(d))
  {
    hide StartBit, BlocksPerBits, FitsInPlace, Target, Rooted;
    RootedPlaced(d, name);
  }

  // ----- without compaction -----

  /** Where the file starts after a truncate without compaction: where it did, or at the lowest free block, or nowhere. */
  predicate StartsAt(d: Disk, f: File, b: int) {
    if f.block >= 0 then b == f.block
    else if Full(d) then b == f.block
    else 0 <= b < |d.bitmap| && !d.bitmap[b] && forall x :: 0 <= x < b ==> d.bitmap[x]
  }

  lemma RootedIs(d: Disk, name: string)
    requires Known(d, name)
    ensures var e, f := Rooted(d, name), d.files[name];
            && name in e.files && e.files[name].size == f.size && StartsAt(d, f, e.files[name].block)
            && e.blocks == d.blocks && e.bs == d.bs && |e.bitmap| == |d.bitmap| && e.files.Keys == d.files.Keys
            && (forall n :: n in d.files && n != name ==> e.files[n] == d.files[n])
            && forall x :: 0 <= x < |d.bitmap| ==>
                 (e.bitmap[x] <==> d.bitmap[x] || (f.block < 0 && e.files[name].block == x))
  {
    hide BlocksPerBits, StartBit;
    var b := LowestFree(d.bitmap, 0);
    EmptyBlocks(d);
  }

  /**
   A truncate without compaction moves nothing and changes one record: its start as said above, its size to the new
   one if the file has the blocks for it there and not at all otherwise. A block is marked afterwards exactly when it is
   one of the file's new ones, or was marked and not the file's.
   */
  lemma PlainOutcome(d: Disk, name: string, newSize: nat, order: seq<string>)
    requires Allotted(d) && name in d.files && Known(d, name) && newSize < LIMIT && !Compacts(d, name, newSize)
    ensures var r, f, e := Truncated(d, name, newSize, order).0, d.files[name], Rooted(d, name);
            && r.blocks == d.blocks && r.bs == d.bs && |r.bitmap| == |d.bitmap| && r.files.Keys == d.files.Keys
            && (forall n :: n in d.files && n != name ==> r.files[n] == d.files[n])
            && name in e.files && StartsAt(d, f, r.files[name].block)
            && var fits := HasRoot(e, name) && FitsInPlace(e, name, newSize);
               && r.files[name].size == (if fits then newSize else f.size)
               && forall x :: 0 <= x < |d.bitmap| ==>
                    (r.bitmap[x] <==> (d.bitmap[x] && !Inside(d, f, x)) || Inside(d, r.files[name], x))
  {
    hide StartBit, BlocksPerBits, Rooted, LowestFree, SetRange, Target;
    RootedPlaced(d, name);
    RootedIs(d, name);
    EmptyBlocks(d);
    OwnBlocksTaken(d, name);
    var e := Rooted(d, name);
    if e.files[name].block >= 0 && FitsInPlace(e, name, newSize) {
      ResizedIs(e, name, newSize);
    }
  }

  lemma ResizedIs(e: Disk, name: string, newSize: nat)
    requires HasRoot(e, name) && FitsInPlace(e, name, newSize) && newSize < LIMIT
    requires forall x :: 0 <= x < |e.bitmap| && Inside(e, e.files[name], x) ==> e.bitmap[x]
    ensures var r, f := Resized(e, name, newSize), e.files[name];
            && r.blocks == e.blocks && r.bs == e.bs && |r.bitmap| == |e.bitmap|
            && r.files == e.files[name := File(f.block, newSize)]
            && forall x :: 0 <= x < |e.bitmap| ==>
                 (r.bitmap[x] <==> (e.bitmap[x] && !Inside(e, f, x)) || Inside(e, File(f.block, newSize), x))
  {
    hide StartBit, BlocksPerBits;
  }

  // ----- through compaction -----

  /**
   After the compacting branch a block is marked exactly when it is below the packed files' end, or below the end of
   the extension if there was room for it, or was left behind.
   */
  lemma CompactingBit(d: Disk, name: string, newSize: nat, order: seq<string>, x: nat)
    requires Callable(d, name, newSize, order) && Compacts(d, name, newSize) && x < |d.bitmap|
    requires Names(AtTarget(d, name), order) && HasRoot(Compact(AtTarget(d, name), order), name)
    requires HasRoot(Rooted(d, name), name)
    ensures var e, r := Rooted(d, name), Truncated(d, name, newSize, order).0;
            var end := PackedEnd(e, name, Blocks(e, e.files[name]));
            && |r.bitmap| == |d.bitmap|
            && (r.bitmap[x] <==> x < end + (if Extends(e, name, newSize) then ToAdd(e, name, newSize) else 0)
                                 || LeftBehind(e, name, x))
  {
    hide StartBit, BlocksPerBits, Allotted, Relocate, Compact, IsListing, Names, Total, Ready, LeftBehind, PackedEnd;
    hide Movable, Clear, AboveOthers;
    CompactingReportsIff(d, name, newSize, order);
    CompactingShiftable(d, name, newSize, order);
    var e := Rooted(d, name);
    var t, used := Target(e, name), Blocks(e, e.files[name]);
    NoFitMeansMore(e, name, newSize);
    ShiftedBit(e, name, t, used, order, x);
    ShiftedTotal(e, name, t, used, order);
    if Truncated(d, name, newSize, order).1 == 1 {
      ExtensionEnds(e, name, t, used, order, ToAdd(e, name, newSize));
    }
  }

  /** Where there was room, the file is the last of the packed ones. */
  lemma ExtensionEnds(e: Disk, name: string, t: nat, bytes: nat, order: seq<string>, toAdd: nat)
    requires Shiftable(e, name, t, bytes, order) && Names(Moved(e, name, t, bytes), order) && toAdd > 0
    requires HasRoot(Shifted(e, name, t, bytes, order), name)
    requires Extended(Shifted(e, name, t, bytes, order), name, toAdd).1 == 1
    ensures var g := Shifted(e, name, t, bytes, order);
            var f := g.files[name];
            f.block + Blocks(g, f) == Total(Moved(e, name, t, bytes), order)
  {
    hide Relocate, Compact, Total, Ready, StartBit, BlocksPerBits, Movable, Laid, Pos;
    ExtensionCheck(e, name, t, bytes, order, toAdd);
    var m := Moved(e, name, t, bytes);
    ShiftReady(e, name, t, bytes, order);
    MovedFiles(e, name, t, bytes);
    assert name in m.files;
    var j :| 0 <= j < |order| && order[j] == name;
    CompactionPreserves(m, order, j);
    LastIffAbove(e, name, t, bytes, order, j);
    TotalSplit(m, order, j);
  }

  /** Every record after the compacting branch: packed from block 0 in the order of the listing, sizes as handed over. */
  lemma CompactingFiles(d: Disk, name: string, newSize: nat, order: seq<string>, j: nat)
    requires Callable(d, name, newSize, order) && Compacts(d, name, newSize) && j < |order|
    requires Names(AtTarget(d, name), order) && HasRoot(Compact(AtTarget(d, name), order), name)
    requires HasRoot(Rooted(d, name), name)
    ensures var e, m, r := Rooted(d, name), AtTarget(d, name), Truncated(d, name, newSize, order).0;
            && r.files.Keys == d.files.Keys && order[j] in d.files
            && r.files[order[j]] == File(Pos(m, order, j), if order[j] == name then Blocks(e, e.files[name])
                                                           else d.files[order[j]].size)
  {
    hide StartBit, BlocksPerBits, Allotted, Relocate, Compact, IsListing, Total, Ready, Extends, Pos, Movable, Available;
    CompactingShiftable(d, name, newSize, order);
    var e := Rooted(d, name);
    var t, used, m := Target(e, name), Blocks(e, e.files[name]), AtTarget(d, name);
    MovedFiles(e, name, t, used);
    ShiftReady(e, name, t, used, order);
    CompactionPreserves(m, order, j);
    NoFitMeansMore(e, name, newSize);
  }
}
