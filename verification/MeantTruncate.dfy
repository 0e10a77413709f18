/**
 Truncate as it was meant: the move before the compaction is handed the size in bytes, the new size is stored
 after the extension, and nothing moved is no success. The disk stays consistent in every case, and success
 means that the file has the new size and nothing was lost.
 */
module MeantTruncate {
  import opened BitStrings
  import opened DiskModel
  import opened Moves
  import opened Compaction
  import opened DiskOps
  import opened Truncate
  import opened Extension
  import opened TruncateContents
  import opened TruncateOutcome

  /** The compacting branch: move, compact, and grow in place there if that fits. */
  function Grown(e: Disk, name: string, t: nat, order: seq<string>, newSize: nat): (r: (Disk, int))
    requires HasRoot(e, name) && Names(Moved(e, name, t, e.files[name].size), order)
    requires HasRoot(Shifted(e, name, t, e.files[name].size, order), name)
  {
    var g := Shifted(e, name, t, e.files[name].size, order);
    if FitsInPlace(g, name, newSize) then (Resized(g, name, newSize), 1) else (g, 0)
  }

  /** What the branch starts from: the file does not fit where it is, and a run of its length is free. */
  ghost predicate Growing(e: Disk, name: string, t: nat, order: seq<string>, newSize: nat) {
    && Consistent(e) && HasRoot(e, name) && !FitsInPlace(e, name, newSize) && newSize < LIMIT
    && Shiftable(e, name, t, e.files[name].size, order)
  }

  lemma GrowingDefined(e: Disk, name: string, t: nat, order: seq<string>, newSize: nat)
    requires Growing(e, name, t, order, newSize)
    ensures Names(Moved(e, name, t, e.files[name].size), order)
    ensures var g := Shifted(e, name, t, e.files[name].size, order);
            && HasRoot(g, name) && g.files[name].size == e.files[name].size && g.bs == e.bs
            && |g.bitmap| == |e.bitmap|
  {
    hide Relocate, Compact, Ready, StartBit, BlocksPerBits, Movable, FitsInPlace, IsListing, Names;
    ShiftReady(e, name, t, e.files[name].size, order);
    ExtensionCheck(e, name, t, e.files[name].size, order, 1);
    SameShape(e, name, t, order);
  }

  lemma SameShape(e: Disk, name: string, t: nat, order: seq<string>)
    requires HasRoot(e, name) && Names(Moved(e, name, t, e.files[name].size), order)
    ensures var g := Shifted(e, name, t, e.files[name].size, order);
            g.bs == e.bs && |g.bitmap| == |e.bitmap|
  {
    hide Relocate, Compact;
  }

  /** Growing in place there is the extension check for the blocks to add. */
  lemma FitsIsExtension(e: Disk, name: string, t: nat, order: seq<string>, newSize: nat)
    requires Growing(e, name, t, order, newSize)
    ensures Names(Moved(e, name, t, e.files[name].size), order)
    ensures var g := Shifted(e, name, t, e.files[name].size, order);
            && HasRoot(g, name) && ToAdd(e, name, newSize) > 0
            && (FitsInPlace(g, name, newSize) <==> Extended(g, name, ToAdd(e, name, newSize)).1 == 1)
  {
    hide Relocate, Compact, StartBit, BlocksPerBits, Shiftable, Available, Names;
    GrowingDefined(e, name, t, order, newSize);
    NoFitMeansMore(e, name, newSize);
  }

  /**
   The branch succeeds exactly when the target lies above every other file and the free blocks suffice; it leaves a
   consistent disk either way, records the new size exactly when it succeeds, and keeps every other size.
   */
  lemma GrownIff(e: Disk, name: string, t: nat, order: seq<string>, newSize: nat)
    requires Growing(e, name, t, order, newSize)
    ensures Names(Moved(e, name, t, e.files[name].size), order)
    ensures HasRoot(Shifted(e, name, t, e.files[name].size, order), name)
    ensures var r := Grown(e, name, t, order, newSize);
            && (r.1 == 1 <==> AboveOthers(e, name, t) && ToAdd(e, name, newSize) <= FreeCount(e.bitmap))
            && Consistent(r.0)
            && name in r.0.files && (r.1 == 1 <==> r.0.files[name].size == newSize)
            && (forall n :: n in e.files && n != name ==> n in r.0.files && r.0.files[n].size == e.files[n].size)
  {
    hide Relocate, Compact, StartBit, BlocksPerBits, Allotted, IsListing, Names, AboveOthers, Available, Movable;
    hide FitsInPlace, Extended, Total, Orphan;
    var size := e.files[name].size;
    GrowingDefined(e, name, t, order, newSize);
    FitsIsExtension(e, name, t, order, newSize);
    MeantExtensionIff(e, name, t, order, ToAdd(e, name, newSize));
    ShiftedConsistent(e, name, t, order);
    ShiftedSizes(e, name, t, order);
    LargerThanBefore(e, name, newSize);
    var g := Shifted(e, name, t, size, order);
    if FitsInPlace(g, name, newSize) {
      ResizedKeeps(g, name, newSize);
      ResizedFiles(g, name, newSize);
    }
  }

  lemma ResizedFiles(g: Disk, name: string, newSize: nat)
    requires HasRoot(g, name) && FitsInPlace(g, name, newSize) && newSize < LIMIT
    ensures Resized(g, name, newSize).files == g.files[name := File(g.files[name].block, newSize)]
  {
    hide BlocksPerBits, SetRange;
  }

  /** More blocks are needed only for more bytes. */
  lemma LargerThanBefore(e: Disk, name: string, newSize: nat)
    requires HasRoot(e, name) && ToAdd(e, name, newSize) > 0 && newSize < LIMIT
    ensures newSize > e.files[name].size
  {
    var size := e.files[name].size;
    if newSize <= size {
      MoreBytesMoreBlocks(newSize, size, e.bs);
    }
  }

  lemma MoreBytesMoreBlocks(a: nat, b: nat, bs: nat)
    requires 0 < bs <= LIMIT && a <= b < LIMIT
    ensures BlocksPerBits(a, bs) <= BlocksPerBits(b, bs)
  {
    hide BlocksPerBits, StartBit;
    BlocksHoldBytes(a, bs);
    BlocksHoldBytes(b, bs);
    var k, l := BlocksPerBits(a, bs), BlocksPerBits(b, bs);
    if l < k {
      StartBitMonotone(bs, l, k - 1);
    }
  }

  lemma ShiftedConsistent(e: Disk, name: string, t: nat, order: seq<string>)
    requires Consistent(e) && HasRoot(e, name) && Shiftable(e, name, t, e.files[name].size, order)
    requires Names(Moved(e, name, t, e.files[name].size), order)
    ensures Consistent(Shifted(e, name, t, e.files[name].size, order))
  {
    hide Relocate, Compact, StartBit, BlocksPerBits, Consistent, IsListing, Names, Total, Movable, Clear;
    ShiftedConsistentIff(e, name, t, e.files[name].size, order);
    OwnBlocksBelowTotal(e, name, t, order);
    var total := Total(Moved(e, name, t, e.files[name].size), order);
    if total < |e.bitmap| {
      ConsistentClear(e, name, total, |e.bitmap|);
    } else {
      NothingToClear(e, name, total);
    }
  }

  lemma NothingToClear(e: Disk, name: string, lo: int)
    requires HasRoot(e, name) && lo >= |e.bitmap|
    ensures Clear(e, name, lo, |e.bitmap|)
  {
  }

  lemma ShiftedSizes(e: Disk, name: string, t: nat, order: seq<string>)
    requires HasRoot(e, name) && Shiftable(e, name, t, e.files[name].size, order)
    requires Names(Moved(e, name, t, e.files[name].size), order)
    ensures var g := Shifted(e, name, t, e.files[name].size, order);
            forall n :: n in e.files ==> n in g.files && g.files[n].size == e.files[n].size
  {
    hide Relocate, Compact, StartBit, BlocksPerBits, Laid, Movable, Ready, Names;
    var m := Moved(e, name, t, e.files[name].size);
    MovedFiles(e, name, t, e.files[name].size);
    ShiftReady(e, name, t, e.files[name].size, order);
    forall n | n in e.files
      ensures n in Compact(m, order).files && Compact(m, order).files[n].size == e.files[n].size
    {
      assert n in m.files;
      var j :| 0 <= j < |order| && order[j] == n;
      CompactionPreserves(m, order, j);
    }
  }

  /** What the branch leaves of a file: the grown one has all its bytes, another one those after the move. */
  ghost function Left(e: Disk, name: string, t: nat, n: string): (c: seq<byte>)
    requires HasRoot(e, name) && HasRoot(e, n)
    ensures |c| == e.files[n].size
  {
    if n == name then Bytes(e, e.files[n]) else AfterMove(e, name, t, n)
  }

  /**
   The first bytes of a zero-free file afterwards. One file at most is changed, in its first byte, and none when the
   target lies above every other file, which is the case whenever the branch succeeds.
   */
  lemma GrownBytes(e: Disk, name: string, t: nat, order: seq<string>, newSize: nat, n: string)
    requires Growing(e, name, t, order, newSize) && HasRoot(e, n) && ZeroFree(Bytes(e, e.files[n]))
    ensures Names(Moved(e, name, t, e.files[name].size), order)
    ensures HasRoot(Shifted(e, name, t, e.files[name].size, order), name)
    ensures var r := Grown(e, name, t, order, newSize).0;
            && HasRoot(r, n) && r.files[n].size >= e.files[n].size
            && Bytes(r, r.files[n])[..e.files[n].size] == Left(e, name, t, n)
    ensures AboveOthers(e, name, t) ==> Left(e, name, t, n) == Bytes(e, e.files[n])
  {
    hide Relocate, Compact, StartBit, BlocksPerBits, Consistent, IsListing, Names, Available, Movable, Spills;
    hide FitsInPlace, Extended, Total, Content, Decode, Shifted, Resized;
    var size := e.files[name].size;
    GrowingDefined(e, name, t, order, newSize);
    ShiftedConsistent(e, name, t, order);
    NoFitMeansMore(e, name, newSize);
    LargerThanBefore(e, name, newSize);
    ShiftedOwn(e, name, t, size, order);
    if n != name {
      ShiftedOther(e, name, t, size, order, n);
    }
    var g := Shifted(e, name, t, size, order);
    if FitsInPlace(g, name, newSize) {
      GrowthKeeps(g, name, newSize, n);
    }
  }

  lemma GrowthKeeps(g: Disk, name: string, newSize: nat, n: string)
    requires Consistent(g) && HasRoot(g, name) && FitsInPlace(g, name, newSize)
    requires g.files[name].size <= newSize < LIMIT && HasRoot(g, n)
    ensures var r := Resized(g, name, newSize);
            && HasRoot(r, n) && r.files[n].size >= g.files[n].size
            && Bytes(r, r.files[n])[..g.files[n].size] == Bytes(g, g.files[n])
  {
    hide StartBit, BlocksPerBits, Allotted, Orphan, FitsInPlace, Resized, Decode, Content;
    ResizedContent(g, name, newSize, n);
    var r, size := Resized(g, name, newSize), g.files[n].size;
    EightTimes(r.files[n].size);
    EightTimes(size);
    PrefixBytes(Content(r, r.files[n]), size);
    PrefixBytes(Content(g, g.files[n]), size);
  }

  /**
   Exactly when a zero-free file keeps all its bytes through the branch: it is not the file that begins where the
   target run ends, or the moved file does not spill, or what it spills is there already.
   */
  lemma GrownKeepsBytesIff(e: Disk, name: string, t: nat, order: seq<string>, newSize: nat, n: string)
    requires Growing(e, name, t, order, newSize) && HasRoot(e, n) && ZeroFree(Bytes(e, e.files[n]))
    ensures Names(Moved(e, name, t, e.files[name].size), order)
    ensures HasRoot(Shifted(e, name, t, e.files[name].size, order), name)
    ensures var r, size := Grown(e, name, t, order, newSize), e.files[n].size;
            && HasRoot(r.0, n) && r.0.files[n].size >= size
            && (Bytes(r.0, r.0.files[n])[..size] == Bytes(e, e.files[n])
                <==> (Hit(e, name, t, n) ==> Bytes(e, e.files[n])[0] == Stray(e, e.files[name])))
            && (r.1 == 1 ==> !Hit(e, name, t, n))
  {
    hide Grown, Spills, Decode, Stray, Content, BlocksPerBits, StartBit, AboveOthers, ToAdd, Bytes, Hit, Shifted;
    hide Consistent, FitsInPlace, Shiftable;
    GrownBytes(e, name, t, order, newSize, n);
    GrownIff(e, name, t, order, newSize);
    if AboveOthers(e, name, t) {
      AboveNotHit(e, name, t, n);
    }
    if Hit(e, name, t, n) {
      NotItself(e, name, t, n);
      SameFirst(Bytes(e, e.files[n]), Stray(e, e.files[name]));
    }
  }

  lemma SameFirst(c: seq<byte>, b: byte)
    requires c != []
    ensures c[0 := b] == c <==> c[0] == b
  {
    assert c[0 := b][0] == b;
  }

  lemma NotItself(e: Disk, name: string, t: nat, n: string)
    requires HasRoot(e, name) && HasRoot(e, n) && Hit(e, name, t, n)
    ensures n != name && Bytes(e, e.files[n]) != []
  {
  }

  lemma AboveNotHit(e: Disk, name: string, t: nat, n: string)
    requires HasRoot(e, name) && HasRoot(e, n) && AboveOthers(e, name, t)
    ensures !Hit(e, name, t, n)
  {
  }

  // ----- the whole truncate -----

  /** Every case of the meant truncate; `order` lists the directory as the compaction finds it. */
  function MeantTruncated(d: Disk, name: string, newSize: nat, order: seq<string>): (r: (Disk, int))
    requires name in d.files ==> Known(d, name)
    requires MeantListing(d, name, newSize, order)
  {
    if name !in d.files then (d, 0)
    else
      RootedPlaced(d, name);
      var e := Rooted(d, name);
      if e.files[name].block < 0 then (d, 0)
      else if FitsInPlace(e, name, newSize) then (Resized(e, name, newSize), 1)
      else if Target(e, name) < 0 then (e, 0)
      else Grown(e, name, Target(e, name), order, newSize)
  }

  /** Where the branch is taken, the listing names the files of the disk it has moved the file on. */
  ghost predicate MeantListing(d: Disk, name: string, newSize: nat, order: seq<string>)
    requires name in d.files ==> Known(d, name)
  {
    Compacts(d, name, newSize) ==>
      var e := Rooted(d, name);
      RootedPlaced(d, name);
      && Names(Moved(e, name, Target(e, name), e.files[name].size), order)
      && HasRoot(Shifted(e, name, Target(e, name), e.files[name].size, order), name)
  }

  /** The branch with the target the search gives. */
  ghost predicate AtItsTarget(e: Disk, name: string, order: seq<string>, newSize: nat) {
    HasRoot(e, name) && Target(e, name) >= 0 && Growing(e, name, Target(e, name), order, newSize)
  }

  /** What a caller of the meant truncate can rely on. */
  ghost predicate MeantCallable(d: Disk, name: string, newSize: nat, order: seq<string>) {
    && Consistent(d) && name in d.files && Known(d, name) && newSize < LIMIT
    && (Compacts(d, name, newSize) ==>
          AllPlaced(Rooted(d, name)) && AtItsTarget(Rooted(d, name), name, order, newSize))
  }

  /**
   The meant truncate leaves a consistent disk in every case, and reports success exactly when the file has the new
   size: it fits in place, or its target lies above every other file and the free blocks suffice.
   */
  lemma MeantTruncateIff(d: Disk, name: string, newSize: nat, order: seq<string>)
    requires MeantCallable(d, name, newSize, order) && Rooted(d, name).files[name].block >= 0
    ensures MeantListing(d, name, newSize, order)
    ensures HasRoot(Rooted(d, name), name)
    ensures var r, e := MeantTruncated(d, name, newSize, order), Rooted(d, name);
            && Consistent(r.0) && name in r.0.files
            && (r.1 == 1 ==> r.0.files[name].size == newSize)
            && (r.1 == 1 <==> FitsInPlace(e, name, newSize)
                              || (Target(e, name) >= 0 && AboveOthers(e, name, Target(e, name))
                                  && ToAdd(e, name, newSize) <= FreeCount(e.bitmap)))
  {
    hide Relocate, Compact, StartBit, BlocksPerBits, Allotted, IsListing, Names, AboveOthers, Available, Movable;
    hide Orphan, Rooted, Resized, Shifted, AllPlaced, Grown, Growing, Target, Extended, FitsInPlace;
    RootedPlaced(d, name);
    RootedKeeps(d, name);
    var e := Rooted(d, name);
    if FitsInPlace(e, name, newSize) {
      ResizedKeeps(e, name, newSize);
      ResizedFiles(e, name, newSize);
    } else if Target(e, name) >= 0 {
      GrownIff(e, name, Target(e, name), order, newSize);
    }
  }
}
