/**
 Free space is conserved: on a consistent disk the blocks of the files and the free blocks add up to
 the disk.
 */
module FreeSpace {
  import opened DiskModel
  import opened Compaction
  import opened DiskOps

  lemma {:induction false} FreeCountSetRange(bits: seq<bool>, lo: nat, hi: nat)
    requires lo <= hi <= |bits|
    requires forall x :: lo <= x < hi ==> !bits[x]
    ensures FreeCount(SetRange(bits, lo, hi, true)) == FreeCount(bits) - (hi - lo)
    decreases |bits|
  {
    var n := |bits|;
    if n > 0 {
      var front := bits[..n - 1];
      var top := if hi == n then n - 1 else hi;
      var low := if lo <= top then lo else top;
      FreeCountSetRange(front, low, top);
      assert SetRange(bits, lo, hi, true)[..n - 1] == SetRange(front, low, top, true);
    }
  }

  lemma {:induction false} FreeCountNone(n: nat, bits: seq<bool>)
    requires |bits| == n && forall x :: 0 <= x < n ==> !bits[x]
    ensures FreeCount(bits) == n
  {
    if n > 0 {
      FreeCountNone(n - 1, bits[..n - 1]);
    }
  }

  /** Every file once, in any order. */
  ghost predicate IsEnumeration(files: map<string, File>, order: seq<string>) {
    && (forall i :: 0 <= i < |order| ==> order[i] in files)
    && (forall n :: n in files ==> n in order)
    && (forall i, j :: 0 <= i < j < |order| ==> order[i] != order[j])
  }

  /** The blocks of the first `i` files, as a bitmap. */
  function Marks(d: Disk, order: seq<string>, i: nat): (bits: seq<bool>)
    requires Names(d, order) && i <= |order|
    ensures |bits| == |d.bitmap|
    ensures forall x {:trigger bits[x]} :: 0 <= x < |bits| ==> bits[x] == InFirst(d, order, i, x)
  {
    seq(|d.bitmap|, x requires 0 <= x < |d.bitmap| => InFirst(d, order, i, x))
  }

  lemma {:induction false} InFirstApart(d: Disk, order: seq<string>, i: nat, j: nat, x: int)
    requires Laid(d) && IsEnumeration(d.files, order) && Names(d, order) && i <= j < |order|
    requires Inside(d, Nth(d, order, j), x)
    ensures !InFirst(d, order, i, x)
    decreases i
  {
    if i > 0 {
      assert Apart(d, d.files[order[i - 1]], d.files[order[j]]);
      InFirstApart(d, order, i - 1, j, x);
    }
  }

  lemma {:induction false} MarksCount(d: Disk, order: seq<string>, i: nat)
    requires Laid(d) && IsEnumeration(d.files, order) && Names(d, order) && i <= |order|
    ensures FreeCount(Marks(d, order, i)) == |d.bitmap| - Pos(d, order, i)
    decreases i
  {
    hide Laid, IsEnumeration, Names, BlocksPerBits, StartBit;
    if i == 0 {
      FreeCountNone(|d.bitmap|, Marks(d, order, 0));
    } else {
      MarksCount(d, order, i - 1);
      var f := Nth(d, order, i - 1);
      LaidPlaced(d, order, i - 1);
      var before := Marks(d, order, i - 1);
      forall x | 0 <= x < |before| && Inside(d, f, x)
        ensures before[x] == false
      {
        InFirstApart(d, order, i - 1, i - 1, x);
      }
      FreeCountSetRange(before, f.block, f.block + Blocks(d, f));
      assert SetRange(before, f.block, f.block + Blocks(d, f), true) == Marks(d, order, i);
    }
  }

  lemma LaidPlaced(d: Disk, order: seq<string>, i: nat)
    requires Laid(d) && Names(d, order) && i < |order|
    ensures WellFormed(d) && Placed(d, Nth(d, order, i))
  {
    assert order[i] in d.files;
  }

  /** The blocks that files own, as a bitmap. */
  ghost function OwnedMap(d: Disk): (bits: seq<bool>)
    requires d.bs > 0
    ensures |bits| == |d.bitmap|
    ensures forall x {:trigger bits[x]} :: 0 <= x < |bits| ==> bits[x] == Owned(d, x)
  {
    seq(|d.bitmap|, x requires 0 <= x < |d.bitmap| => Owned(d, x))
  }

  /** Blocks of the files and blocks without an owner make the whole disk. */
  lemma BlocksConserved(d: Disk, order: seq<string>)
    requires Laid(d) && IsEnumeration(d.files, order) && Names(d, order)
    ensures Total(d, order) + FreeCount(OwnedMap(d)) == |d.bitmap|
  {
    MarksCount(d, order, |order|);
    forall x | 0 <= x < |d.bitmap|
      ensures Marks(d, order, |order|)[x] == OwnedMap(d)[x]
    {
      InFirstOwned(d, order, |order|, x);
      OwnedInOrder(d, order, x);
    }
    assert Marks(d, order, |order|) == OwnedMap(d);
  }

  /** On a consistent disk the bitmap shows who owns what. */
  lemma OwnedMapIs(d: Disk)
    requires Consistent(d)
    ensures OwnedMap(d) == d.bitmap
  {
    forall x | 0 <= x < |d.bitmap|
      ensures OwnedMap(d)[x] == d.bitmap[x]
    {
      assert !Orphan(d, x);
    }
  }

  /** On a consistent disk the blocks of the files and the free blocks make the whole disk. */
  lemma SpaceConserved(d: Disk, order: seq<string>)
    requires Consistent(d) && AllPlaced(d) && IsEnumeration(d.files, order) && Names(d, order)
    ensures Total(d, order) + FreeCount(d.bitmap) == |d.bitmap|
  {
    hide Total;
    AllottedLaid(d);
    BlocksConserved(d, order);
    OwnedMapIs(d);
  }

  lemma OwnedInOrder(d: Disk, order: seq<string>, x: int)
    requires IsEnumeration(d.files, order) && Names(d, order)
    ensures Owned(d, x) <==> exists j :: 0 <= j < |order| && Inside(d, Nth(d, order, j), x)
  {
    if Owned(d, x) {
      var n :| n in d.files && Inside(d, d.files[n], x);
      var j :| 0 <= j < |order| && order[j] == n;
      assert Inside(d, Nth(d, order, j), x);
    }
    if j :| 0 <= j < |order| && Inside(d, Nth(d, order, j), x) {
      assert order[j] in d.files;
    }
  }

  /** The total when one record changes its size. */
  lemma {:induction false} PosAfterChange(d: Disk, m: Disk, order: seq<string>, j: nat, i: nat)
    requires Names(d, order) && Names(m, order) && m.bs == d.bs && j < |order| && i <= |order|
    requires IsEnumeration(d.files, order)
    requires m.files == d.files[order[j] := m.files[order[j]]]
    ensures Pos(m, order, i)
         == Pos(d, order, i) + (if j < i then Blocks(m, Nth(m, order, j)) - Blocks(d, Nth(d, order, j)) else 0)
    decreases i
  {
    if i > 0 {
      PosAfterChange(d, m, order, j, i - 1);
      assert i - 1 != j ==> order[i - 1] != order[j];
    }
  }
}
