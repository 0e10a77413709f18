/**
 Truncate as a whole, as it is coded, and exactly what it achieves: when the new size is recorded, when
 the compacting branch reports success, and when the disk stays consistent. Beside it, what the
 compacting branch would achieve if the move were handed the size in bytes.
 */
module TruncateOutcome {
  import opened CTypes
  import opened BitStrings
  import opened DiskModel
  import opened Compaction
  import opened DiskOps
  import opened Truncate
  import opened Extension
  import opened FreeSpace
  import opened Packed

  /** Blocks to add in the compacting branch. */
  function ToAdd(e: Disk, name: string, newSize: nat): (n: int)
    requires HasRoot(e, name)
  {
    BlocksPerBits(newSize, e.bs) - Blocks(e, e.files[name])
  }

  /**
   The outcome of a truncate: the disk and the return value. `order` is the directory listing that
   compaction works from; it matters in that branch only. The move is handed the number of blocks.
   */
  function Truncated(d: Disk, name: string, newSize: nat, order: seq<string>): (r: (Disk, int))
    requires name in d.files ==> Known(d, name)
    requires Compacts(d, name, newSize) ==> Names(AtTarget(d, name), order) && HasRoot(Compact(AtTarget(d, name), order), name)
  {
    if name !in d.files then (d, 0)
    else
      RootedPlaced(d, name);
      var e := Rooted(d, name);
      if e.files[name].block < 0 then (d, 0)
      else if FitsInPlace(e, name, newSize) then (Resized(e, name, newSize), 1)
      else if Target(e, name) < 0 then (e, 1)
      else Extended(Compact(AtTarget(d, name), order), name, ToAdd(e, name, newSize))
  }

  predicate Compacts(d: Disk, name: string, newSize: nat)
    requires name in d.files ==> Known(d, name)
  {
    name in d.files
    && (RootedPlaced(d, name);
        var e := Rooted(d, name);
        e.files[name].block >= 0 && !FitsInPlace(e, name, newSize) && Target(e, name) >= 0)
  }

  /** The disk once the file has been moved to its target. */
  function AtTarget(d: Disk, name: string): (m: Disk)
    requires name in d.files ==> Known(d, name)
  {
    if name !in d.files then d
    else
      RootedPlaced(d, name);
      var e := Rooted(d, name);
      if e.files[name].block < 0 || Target(e, name) < 0 then d
      else Moved(e, name, Target(e, name), Blocks(e, e.files[name]))
  }

  lemma NoFitMeansMore(e: Disk, name: string, newSize: nat)
    requires HasRoot(e, name) && !FitsInPlace(e, name, newSize)
    ensures ToAdd(e, name, newSize) > 0
  {
  }

  /** As many bytes as there are blocks never need more blocks. */
  lemma BlocksOfBlocks(bs: nat, k: nat)
    requires 0 < bs <= LIMIT && 0 < k < LIMIT
    ensures BlocksPerBits(k, bs) <= k
  {
    CeilingBounds(k, bs);
    var q := (k + bs - 1) / bs;
    assert (k + bs - 1) % UINT32 == k + bs - 1;
    if q > 0 {
      MulMonotone(q - 1, 1, bs);
      assert bs * (q - 1) == (q - 1) * bs;
    }
  }

  /** The compacting branch starts from a movable file. */
  lemma CompactingMovable(d: Disk, name: string, newSize: nat)
    requires Allotted(d) && name in d.files && Known(d, name) && Compacts(d, name, newSize)
    requires AllPlaced(Rooted(d, name))
    ensures var e := Rooted(d, name);
            HasRoot(e, name) && Target(e, name) >= 0
            && Movable(e, name, Target(e, name), Blocks(e, e.files[name]))
            && AtTarget(d, name) == Moved(e, name, Target(e, name), Blocks(e, e.files[name]))
  {
    hide StartBit, BlocksPerBits, Allotted, Relocate;
    RootedPlaced(d, name);
    RootedKeeps(d, name);
    var e := Rooted(d, name);
    AllottedLaid(e);
    BlocksOfBlocks(e.bs, Blocks(e, e.files[name]));
  }

  /** What a caller of truncate can rely on: the directory is listed as the compaction finds it. */
  ghost predicate Callable(d: Disk, name: string, newSize: nat, order: seq<string>) {
    && Allotted(d) && name in d.files && Known(d, name)
    && (Compacts(d, name, newSize) ==> AllPlaced(Rooted(d, name)) && IsListing(AtTarget(d, name).files, order))
  }

  lemma CompactingShiftable(d: Disk, name: string, newSize: nat, order: seq<string>)
    requires Callable(d, name, newSize, order) && Compacts(d, name, newSize)
    ensures var e := Rooted(d, name);
            && HasRoot(e, name) && Target(e, name) >= 0
            && Shiftable(e, name, Target(e, name), Blocks(e, e.files[name]), order)
            && AtTarget(d, name) == Moved(e, name, Target(e, name), Blocks(e, e.files[name]))
            && Names(AtTarget(d, name), order) && HasRoot(Compact(AtTarget(d, name), order), name)
            && Compact(AtTarget(d, name), order).files[name].size == Blocks(e, e.files[name])
  {
    hide StartBit, BlocksPerBits, Allotted, Relocate, Compact, IsListing, Names, Movable, Clear;
    CompactingMovable(d, name, newSize);
    var e := Rooted(d, name);
    ShiftReady(e, name, Target(e, name), Blocks(e, e.files[name]), order);
    NoFitMeansMore(e, name, newSize);
    ExtensionCheck(e, name, Target(e, name), Blocks(e, e.files[name]), order, ToAdd(e, name, newSize));
  }

  // ----- when the new size is recorded -----

  /** After the compacting branch the file is recorded with as many bytes as it had blocks. */
  lemma CompactingSize(d: Disk, name: string, newSize: nat, order: seq<string>)
    requires Callable(d, name, newSize, order) && Compacts(d, name, newSize)
    requires Names(AtTarget(d, name), order) && HasRoot(Compact(AtTarget(d, name), order), name)
    ensures var e := Rooted(d, name);
            && HasRoot(e, name) && name in Truncated(d, name, newSize, order).0.files
            && Truncated(d, name, newSize, order).0.files[name].size == Blocks(e, e.files[name])
  {
    hide StartBit, BlocksPerBits, Allotted, IsListing, Relocate, Compact, Names, AtTarget;
    RootedPlaced(d, name);
    CompactingShiftable(d, name, newSize, order);
  }

  /**
   Exactly when the recorded size is the requested one: the truncate happens in place and the size has
   at most nine digits (or there is no block to give to a fresh file and nothing is asked for). The
   compacting branch never records it, whether or not it reports success.
   */
  lemma TruncateRecordsIff(d: Disk, name: string, newSize: nat, order: seq<string>)
    requires Callable(d, name, newSize, order) && newSize < UINT32
    requires Compacts(d, name, newSize) ==>
               Names(AtTarget(d, name), order) && HasRoot(Compact(AtTarget(d, name), order), name)
    ensures var r, e := Truncated(d, name, newSize, order).0, Rooted(d, name);
            name in r.files && name in e.files && WellFormed(e)
            && (r.files[name].size == newSize
                <==> if e.files[name].block < 0 then newSize == 0
                     else HasRoot(e, name) && FitsInPlace(e, name, newSize) && newSize < LIMIT)
  {
    hide StartBit, Allotted, Relocate, Compact, IsListing, Names, SetRange, HighestRun;
    RootedPlaced(d, name);
    var e := Rooted(d, name);
    if Compacts(d, name, newSize) {
      CompactingShiftable(d, name, newSize, order);
      RootedKeeps(d, name);
      CompactingMovable(d, name, newSize);
      NoFitMeansMore(e, name, newSize);
    }
  }

  /** Where the packed files end in the compacting branch: all owned blocks, less the blocks cut off. */
  ghost function PackedEnd(e: Disk, name: string, bytes: nat): (n: int)
    requires HasRoot(e, name)
  {
    |e.bitmap| - FreeCount(OwnedMap(e)) - Blocks(e, e.files[name]) + BlocksPerBits(bytes, e.bs)
  }

  lemma ShiftedTotal(e: Disk, name: string, t: nat, bytes: nat, order: seq<string>)
    requires Shiftable(e, name, t, bytes, order) && Names(Moved(e, name, t, bytes), order)
    ensures Total(Moved(e, name, t, bytes), order) == PackedEnd(e, name, bytes)
  {
    hide Relocate, BlocksPerBits, StartBit, Laid;
    MovedFiles(e, name, t, bytes);
    var m := Moved(e, name, t, bytes);
    assert IsEnumeration(e.files, order) by {
      assert m.files.Keys == e.files.Keys;
    }
    assert Names(e, order);
    assert name in m.files;
    var j :| 0 <= j < |order| && order[j] == name;
    PosAfterChange(e, m, order, j, |order|);
    BlocksConserved(e, order);
  }

  // ----- what the compacting branch reports -----

  /** There is room for the extension: nothing above the packed files, and enough blocks there. */
  ghost predicate Extends(e: Disk, name: string, newSize: nat)
    requires HasRoot(e, name)
  {
    var end := PackedEnd(e, name, Blocks(e, e.files[name]));
    && AboveOthers(e, name, Target(e, name)) && end + ToAdd(e, name, newSize) <= |e.bitmap|
    && Clear(e, name, end, end + ToAdd(e, name, newSize))
  }

  /**
   Exactly when the compacting branch reports success: the target lay above every other file, the packed files and
   the added blocks fit the disk, and none of those blocks is marked without an owner, be it from before or because
   the file started at block 0.
   */
  lemma CompactingReportsIff(d: Disk, name: string, newSize: nat, order: seq<string>)
    requires Callable(d, name, newSize, order) && Compacts(d, name, newSize)
    requires Names(AtTarget(d, name), order) && HasRoot(Compact(AtTarget(d, name), order), name)
    requires HasRoot(Rooted(d, name), name)
    ensures Truncated(d, name, newSize, order).1 == 1 <==> Extends(Rooted(d, name), name, newSize)
  {
    hide StartBit, BlocksPerBits, Allotted, Relocate, Compact, IsListing, Names, AboveOthers, Total, Available;
    hide PackedEnd, Clear;
    CompactingShiftable(d, name, newSize, order);
    var e := Rooted(d, name);
    NoFitMeansMore(e, name, newSize);
    ExtensionCheck(e, name, Target(e, name), Blocks(e, e.files[name]), order, ToAdd(e, name, newSize));
    ShiftedTotal(e, name, Target(e, name), Blocks(e, e.files[name]), order);
  }

  /** On a consistent disk only a file that starts at block 0 leaves marks, so the condition is one on numbers. */
  lemma ConsistentClear(e: Disk, name: string, lo: int, hi: int)
    requires Consistent(e) && HasRoot(e, name) && 0 <= lo < hi
    ensures Clear(e, name, lo, hi) <==> (e.files[name].block == 0 ==> Blocks(e, e.files[name]) <= lo)
  {
    hide Allotted, BlocksPerBits, Orphan;
    assert e.files[name].block == 0 && lo < Blocks(e, e.files[name]) ==> LeftBehind(e, name, lo);
  }

  // ----- what the compacting branch leaves -----

  /** More marks on blocks nobody owns do no harm to the files. */
  lemma ExtensionKeeps(g: Disk, name: string, toAdd: nat)
    requires Allotted(g) && HasRoot(g, name)
    ensures Allotted(Extended(g, name, toAdd).0)
    ensures Extended(g, name, toAdd).0.files == g.files
  {
    hide StartBit, BlocksPerBits;
  }

  /** Marking blocks above the packed files breaks consistency. */
  lemma ExtensionBreaks(m: Disk, order: seq<string>, name: string, toAdd: nat)
    requires Ready(m, order) && Names(m, order) && toAdd > 0
    requires HasRoot(Compact(m, order), name) && Extended(Compact(m, order), name, toAdd).1 == 1
    ensures !Consistent(Extended(Compact(m, order), name, toAdd).0)
  {
    hide Compact, Ready, Names, BlocksPerBits, StartBit, Allotted, Owned;
    var g := Compact(m, order);
    var r, f := Extended(g, name, toAdd).0, g.files[name];
    var end := f.block + Blocks(g, f);
    ReadyNames(m, order);
    PosBound(m, order, |order|, |order|);
    CompactionBitmap(m, order, end);
    PackedOwned(m, order, end);
    SameFilesOwned(g, r, end);
    assert Orphan(r, end);
  }

  /** Every truncate keeps the allotment: whatever it marks too many, no file loses or shares a block. */
  lemma TruncateKeeps(d: Disk, name: string, newSize: nat, order: seq<string>)
    requires Callable(d, name, newSize, order) && newSize < LIMIT
    requires Compacts(d, name, newSize) ==>
               Names(AtTarget(d, name), order) && HasRoot(Compact(AtTarget(d, name), order), name)
    ensures Allotted(Truncated(d, name, newSize, order).0)
    ensures !Compacts(d, name, newSize) ==> SameOrphans(d, Truncated(d, name, newSize, order).0)
  {
    hide StartBit, BlocksPerBits, Allotted, Relocate, Compact, IsListing, Names, Total, Ready, Resized, Extended;
    hide FitsInPlace, Target, Orphan;
    RootedPlaced(d, name);
    RootedKeeps(d, name);
    var e := Rooted(d, name);
    if Compacts(d, name, newSize) {
      CompactingShiftable(d, name, newSize, order);
      ShiftReady(e, name, Target(e, name), Blocks(e, e.files[name]), order);
      PackedAllotted(AtTarget(d, name), order);
      NoFitMeansMore(e, name, newSize);
      ExtensionKeeps(Compact(AtTarget(d, name), order), name, ToAdd(e, name, newSize));
    } else if e.files[name].block >= 0 && FitsInPlace(e, name, newSize) {
      ResizedKeeps(e, name, newSize);
    }
  }

  /**
   Exactly when the disk is consistent after the compacting branch, from the disk before the call: it has no room
   for the extension, and no mark without an owner is left above the packed files.
   */
  lemma CompactingConsistentIff(d: Disk, name: string, newSize: nat, order: seq<string>)
    requires Callable(d, name, newSize, order) && Compacts(d, name, newSize)
    requires Names(AtTarget(d, name), order) && HasRoot(Compact(AtTarget(d, name), order), name)
    requires HasRoot(Rooted(d, name), name)
    ensures Consistent(Truncated(d, name, newSize, order).0) <==> GivesUp(Rooted(d, name), name, newSize)
  {
    hide StartBit, BlocksPerBits, Consistent, Relocate, Compact, IsListing, Names, Total, Available, Ready, Movable;
    hide AboveOthers, Allotted, PackedEnd, LeftBehind;
    CompactingReportsIff(d, name, newSize, order);
    CompactingShiftable(d, name, newSize, order);
    var e := Rooted(d, name);
    var t, bytes := Target(e, name), Blocks(e, e.files[name]);
    var m := AtTarget(d, name);
    ShiftReady(e, name, t, bytes, order);
    NoFitMeansMore(e, name, newSize);
    if Truncated(d, name, newSize, order).1 == 1 {
      ExtensionBreaks(m, order, name, ToAdd(e, name, newSize));
    } else {
      ShiftedTotal(e, name, t, bytes, order);
      ShiftedConsistentIff(e, name, t, bytes, order);
    }
  }

  /** No room for the extension, or not at the end; and no mark without an owner above the packed files. */
  ghost predicate GivesUp(e: Disk, name: string, newSize: nat)
    requires HasRoot(e, name)
  {
    var end := PackedEnd(e, name, Blocks(e, e.files[name]));
    && !(AboveOthers(e, name, Target(e, name)) && end + ToAdd(e, name, newSize) <= |e.bitmap|)
    && Clear(e, name, end, |e.bitmap|)
  }

  lemma ShiftedConsistentIff(e: Disk, name: string, t: nat, bytes: nat, order: seq<string>)
    requires Shiftable(e, name, t, bytes, order) && Names(Moved(e, name, t, bytes), order)
    ensures Consistent(Shifted(e, name, t, bytes, order))
        <==> Clear(e, name, Total(Moved(e, name, t, bytes), order), |e.bitmap|)
  {
    hide StartBit, BlocksPerBits, Consistent, Relocate, Compact, IsListing, Names, Total, Ready, LeftBehind, Orphan;
    var m := Moved(e, name, t, bytes);
    ShiftReady(e, name, t, bytes, order);
    CompactionConsistentIff(m, order);
    forall x | 0 <= x < |e.bitmap|
      ensures Orphan(m, x) <==> LeftBehind(e, name, x)
    {
      MovedOrphans(e, name, t, bytes, x);
    }
    OrphansInRange(m);
  }

  lemma OrphansInRange(m: Disk)
    requires m.bs > 0
    ensures forall x :: Orphan(m, x) ==> 0 <= x < |m.bitmap|
  {
  }

  lemma MovedOrphans(e: Disk, name: string, t: nat, bytes: nat, x: nat)
    requires Movable(e, name, t, bytes) && x < |e.bitmap|
    ensures Moved(e, name, t, bytes).bs > 0
    ensures Orphan(Moved(e, name, t, bytes), x) <==> LeftBehind(e, name, x)
  {
    hide StartBit, BlocksPerBits, Relocate, LeftBehind, Owned, OwnedByOther, Laid;
    MovedBit(e, name, t, bytes, x);
    MovedOwned(e, name, t, bytes, x);
  }

  // ----- what was meant: the move is handed the size in bytes -----

  /**
   With the size in bytes, the branch succeeds exactly when the target lies above every other file and there are
   enough free blocks.
   */
  lemma MeantExtensionIff(e: Disk, name: string, t: nat, order: seq<string>, toAdd: nat)
    requires HasRoot(e, name) && Shiftable(e, name, t, e.files[name].size, order) && toAdd > 0
    requires Names(Moved(e, name, t, e.files[name].size), order)
    requires HasRoot(Shifted(e, name, t, e.files[name].size, order), name) && Consistent(e)
    ensures Extended(Shifted(e, name, t, e.files[name].size, order), name, toAdd).1 == 1
        <==> AboveOthers(e, name, t) && toAdd <= FreeCount(e.bitmap)
  {
    hide StartBit, BlocksPerBits, Consistent, Relocate, Compact, IsListing, AboveOthers, Total, Available, Clear;
    var bytes := e.files[name].size;
    ExtensionCheck(e, name, t, bytes, order, toAdd);
    ShiftedTotal(e, name, t, bytes, order);
    OwnedMapIs(e);
    var total := PackedEnd(e, name, bytes);
    ConsistentClear(e, name, total, total + toAdd);
    OwnBlocksBelowTotal(e, name, t, order);
  }

  lemma OwnBlocksBelowTotal(e: Disk, name: string, t: nat, order: seq<string>)
    requires HasRoot(e, name) && Shiftable(e, name, t, e.files[name].size, order)
    requires Names(Moved(e, name, t, e.files[name].size), order)
    ensures Blocks(e, e.files[name]) <= Total(Moved(e, name, t, e.files[name].size), order)
  {
    hide StartBit, BlocksPerBits, Laid, Relocate, Total;
    var bytes := e.files[name].size;
    var m := Moved(e, name, t, bytes);
    MovedFiles(e, name, t, bytes);
    assert name in m.files;
    var j :| 0 <= j < |order| && order[j] == name;
    TotalSplit(m, order, j);
  }

  // ----- an example -----

  /** A disk of eight two-byte blocks: file A in blocks 0 and 1, file B in block 2. */
  function SmallDisk(): Disk {
    Disk(2, [true, true, true, false, false, false, false, false], seq(136, i => false),
         map["A" := File(0, 3), "B" := File(2, 2)])
  }

  lemma SmallDiskBlocks()
    ensures var d := SmallDisk();
            && Blocks(d, d.files["A"]) == 2 && Blocks(d, d.files["B"]) == 1
            && (forall x :: Inside(d, d.files["A"], x) <==> 0 <= x < 2)
            && (forall x :: Inside(d, d.files["B"], x) <==> x == 2)
  {
    var d := SmallDisk();
    assert Blocks(d, d.files["A"]) == 2 && Blocks(d, d.files["B"]) == 1;
  }

  lemma SmallDiskConsistent()
    ensures Consistent(SmallDisk()) && AllPlaced(SmallDisk()) && Blocks(SmallDisk(), SmallDisk().files["A"]) == 2
  {
    hide BlocksPerBits, Blocks, Inside, Owned;
    var d := SmallDisk();
    SmallDiskBlocks();
    assert StartBit(2, 8) == 128;
    forall x
      ensures Owned(d, x) <==> 0 <= x < 3
    {
      OwnedSplit(d, "A", x);
      assert OwnedByOther(d, "A", x) <==> Inside(d, d.files["B"], x);
    }
  }

  /** Growing file A there to five bytes cannot be done in place; its target is blocks 6 and 7. */
  lemma SmallDiskCompacts()
    ensures var d := SmallDisk();
            HasRoot(d, "A") && Rooted(d, "A") == d && !FitsInPlace(d, "A", 5) && Target(d, "A") == 6
  {
    var d := SmallDisk();
    assert Blocks(d, d.files["A"]) == 2 && BlocksPerBits(5, 2) == 3;
    assert FreeRun(d.bitmap, 6, 2);
    assert d.bitmap[2];
  }

  lemma FreeCountOfSmallDisk()
    ensures FreeCount(SmallDisk().bitmap) == 5
  {
    var b := SmallDisk().bitmap;
    FreeCountNone(8, seq(8, i => false));
    FreeCountSetRange(seq(8, i => false), 0, 3);
    assert SetRange(seq(8, i => false), 0, 3, true) == b;
  }

  lemma SmallDiskMoved()
    ensures Known(SmallDisk(), "A") && Compacts(SmallDisk(), "A", 5)
    ensures AtTarget(SmallDisk(), "A").files == map["A" := File(6, 2), "B" := File(2, 2)]
  {
    hide BlocksPerBits, StartBit, FitsInPlace, Target, Allotted, Orphan, Rooted, Relocate;
    var d := SmallDisk();
    SmallDiskConsistent();
    SmallDiskCompacts();
    CompactingMovable(d, "A", 5);
    MovedFiles(d, "A", 6, 2);
  }

  lemma SmallDiskListing()
    ensures Known(SmallDisk(), "A") && Compacts(SmallDisk(), "A", 5)
    ensures AtTarget(SmallDisk(), "A").files == map["A" := File(6, 2), "B" := File(2, 2)]
    ensures Callable(SmallDisk(), "A", 5, ["B", "A"])
  {
    hide BlocksPerBits, StartBit, FitsInPlace, Target, Allotted, Orphan, Rooted, AtTarget, Compacts, Known;
    SmallDiskConsistent();
    SmallDiskCompacts();
    SmallDiskMoved();
  }

  lemma SmallDiskExtends()
    ensures HasRoot(SmallDisk(), "A") && Extends(SmallDisk(), "A", 5)
  {
    hide StartBit, Consistent, Owned, OwnedMap, FitsInPlace, FreeCount, Target, Clear;
    var d := SmallDisk();
    SmallDiskConsistent();
    SmallDiskCompacts();
    FreeCountOfSmallDisk();
    OwnedMapIs(d);
    assert BlocksPerBits(5, 2) == 3 && BlocksPerBits(2, 2) == 1;
    ConsistentClear(d, "A", 2, 3);
  }

  /** Truncating A to five bytes reports success and leaves a file of two bytes. */
  lemma TruncateLosesBytes()
    ensures var d, order := SmallDisk(), ["B", "A"];
            && Callable(d, "A", 5, order) && Compacts(d, "A", 5)
            && Names(AtTarget(d, "A"), order) && HasRoot(Compact(AtTarget(d, "A"), order), "A")
            && Truncated(d, "A", 5, order).1 == 1
            && Truncated(d, "A", 5, order).0.files["A"].size == 2
  {
    hide Compact, Callable, Compacts, AtTarget, Names, Extends, StartBit, BlocksPerBits, Target, FitsInPlace;
    var d, order := SmallDisk(), ["B", "A"];
    SmallDiskListing();
    SmallDiskCompacts();
    SmallDiskConsistent();
    SmallDiskExtends();
    CompactingShiftable(d, "A", 5, order);
    CompactingReportsIff(d, "A", 5, order);
    CompactingSize(d, "A", 5, order);
  }
}
