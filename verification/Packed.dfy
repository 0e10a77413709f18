/**
 The disk compaction leaves: files tile the blocks from 0 to the total, so it is consistent exactly when no mark
 without an owner was above the total.
 */
module Packed {
  import opened DiskModel
  import opened Compaction
  import opened DiskOps

  /** Some file of the packed disk covers every block below the total. */
  lemma {:induction false} TileAt(d: Disk, order: seq<string>, i: nat, x: nat) returns (j: nat)
    requires Names(d, order) && i <= |order| && x < Pos(d, order, i)
    ensures j < i && Pos(d, order, j) <= x < Pos(d, order, j) + Blocks(d, Nth(d, order, j))
    decreases i
  {
    if x < Pos(d, order, i - 1) {
      j := TileAt(d, order, i - 1, x);
    } else {
      j := i - 1;
    }
  }

  lemma PackedFile(d: Disk, order: seq<string>, n: string) returns (j: nat)
    requires Ready(d, order) && Names(d, order) && n in Compact(d, order).files
    ensures j < |order| && order[j] == n && Compact(d, order).files[n] == Rest(d, order, j)
    ensures WellFormed(d) && Placed(d, Rest(d, order, j)) && WellFormed(Compact(d, order))
  {
    hide Compact, Laid, BlocksPerBits, StartBit;
    assert n in d.files;
    j :| 0 <= j < |order| && order[j] == n;
    CompactionPreserves(d, order, j);
  }

  lemma PackedOwned(d: Disk, order: seq<string>, x: int)
    requires Ready(d, order) && Names(d, order)
    ensures Owned(Compact(d, order), x) <==> 0 <= x < Total(d, order)
  {
    hide Compact, Ready, Names, BlocksPerBits, StartBit, Placed;
    ReadyNames(d, order);
    var g := Compact(d, order);
    if Owned(g, x) {
      var n :| n in g.files && Inside(g, g.files[n], x);
      var j := PackedFile(d, order, n);
      PosMonotone(d, order, j, |order|);
    }
    if 0 <= x < Total(d, order) {
      var j := TileAt(d, order, |order|, x);
      CompactionPreserves(d, order, j);
      assert Inside(g, g.files[order[j]], x);
    }
  }

  lemma PackedSeparate(d: Disk, order: seq<string>, n: string, k: string)
    requires Ready(d, order) && Names(d, order) && n in d.files && k in d.files && n != k
    ensures d.bs > 0 && Separate(Compact(d, order), Compact(d, order).files[n], Compact(d, order).files[k])
  {
    hide Compact, Ready, Names, BlocksPerBits, StartBit, Placed;
    var i := PackedFile(d, order, n);
    var j := PackedFile(d, order, k);
    if i < j {
      PosMonotone(d, order, i, j);
    } else {
      PosMonotone(d, order, j, i);
    }
  }

  /** The packed disk is allotted. */
  lemma PackedAllotted(d: Disk, order: seq<string>)
    requires Ready(d, order) && Names(d, order)
    ensures Allotted(Compact(d, order))
  {
    hide Compact, Ready, Names, BlocksPerBits, StartBit, Total;
    ReadyNames(d, order);
    CompactWellFormed(d, order);
    var g := Compact(d, order);
    PosBound(d, order, |order|, |order|);
    forall n | n in g.files
      ensures Placed(g, g.files[n])
    {
      var j := PackedFile(d, order, n);
    }
    forall n, x | n in g.files && Inside(g, g.files[n], x)
      ensures g.bitmap[x]
    {
      assert Owned(g, x);
      PackedOwned(d, order, x);
      CompactionBitmap(d, order, x);
    }
    forall n, k | n in g.files && k in g.files && n != k
      ensures Separate(g, g.files[n], g.files[k])
    {
      PackedSeparate(d, order, n, k);
    }
  }

  /** Compaction takes away the orphans below the total and leaves the others. */
  lemma PackedOrphans(d: Disk, order: seq<string>, x: int)
    requires Ready(d, order) && Names(d, order) && d.bs > 0
    ensures Orphan(Compact(d, order), x) <==> x >= Total(d, order) && Orphan(d, x)
  {
    hide Compact, Ready, Names, BlocksPerBits, StartBit, Total, Owned;
    PackedOwned(d, order, x);
    if 0 <= x < |d.bitmap| {
      CompactionBitmap(d, order, x);
    }
  }

  /** Exactly when compaction leaves a consistent disk. */
  lemma CompactionConsistentIff(d: Disk, order: seq<string>)
    requires Ready(d, order) && Names(d, order)
    ensures d.bs > 0
    ensures Consistent(Compact(d, order)) <==> forall x :: x >= Total(d, order) ==> !Orphan(d, x)
  {
    hide Compact, Ready, Names, Orphan, Allotted, Total;
    ReadyNames(d, order);
    PackedAllotted(d, order);
    forall x
      ensures Orphan(Compact(d, order), x) <==> x >= Total(d, order) && Orphan(d, x)
    {
      PackedOrphans(d, order, x);
    }
  }

  lemma CompactWellFormed(d: Disk, order: seq<string>)
    requires Ready(d, order) && Names(d, order)
    ensures WellFormed(Compact(d, order))
  {
    hide Ready, Names, BlocksPerBits, StartBit;
    ReadyNames(d, order);
  }

  /** Compaction of an allotted disk on which every file has blocks; a consistent one stays consistent. */
  lemma CompactionKeeps(d: Disk, order: seq<string>)
    requires Allotted(d) && AllPlaced(d) && IsListing(d.files, order) && Names(d, order)
    ensures Allotted(Compact(d, order))
    ensures Consistent(d) ==> Consistent(Compact(d, order))
  {
    hide Compact, Allotted;
    AllottedLaid(d);
    PackedAllotted(d, order);
    CompactionConsistentIff(d, order);
  }
}
