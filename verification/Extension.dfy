/**
 The compacting branch of truncate. The size handed to the move is a parameter: the code hands over the
 number of blocks of the file, and what was meant is its number of bytes.
 */
module Extension {
  import opened BitStrings
  import opened DiskModel
  import opened Compaction
  import opened DiskOps
  import opened Truncate

  /** A file about to be moved to the free run at `t`, to be recorded there with size `bytes`. */
  ghost predicate Movable(e: Disk, name: string, t: nat, bytes: nat) {
    && Laid(e) && HasRoot(e, name)
    && FreeRun(e.bitmap, t, Blocks(e, e.files[name]))
    && bytes < LIMIT && BlocksPerBits(bytes, e.bs) <= Blocks(e, e.files[name])
  }

  lemma MovedFiles(e: Disk, name: string, t: nat, bytes: nat)
    requires Movable(e, name, t, bytes)
    ensures CanMove(e, name, t, bytes) && WellFormed(Relocate(e, name, t, bytes))
    ensures Relocate(e, name, t, bytes).files == e.files[name := File(t, bytes)]
    ensures Placed(e, File(t, bytes))
  {
    hide StartBit, BlocksPerBits, ReadText, SetRange, Overlay, Encode;
  }

  function Moved(e: Disk, name: string, t: nat, bytes: nat): (m: Disk) {
    Relocate(e, name, t, bytes)
  }

  /** Blocks that stay marked although the file has left them: those of a file that started at block 0. */
  predicate Leaked(e: Disk, f: File, x: int)
    requires e.bs > 0
  {
    f.block == 0 && 0 <= x < Blocks(e, f)
  }

  /** What is marked without an owner once the file has left: orphans from before, and its own leaked blocks. */
  ghost predicate LeftBehind(e: Disk, name: string, x: int)
    requires e.bs > 0 && name in e.files
  {
    Orphan(e, x) || Leaked(e, e.files[name], x)
  }

  /** No such mark among the blocks from `lo` to below `hi`. */
  ghost predicate Clear(e: Disk, name: string, lo: int, hi: int)
    requires e.bs > 0 && name in e.files
  {
    forall x :: lo <= x < hi ==> !LeftBehind(e, name, x)
  }

  lemma OwnAlone(e: Disk, name: string, x: int)
    requires Laid(e) && name in e.files && Inside(e, e.files[name], x)
    ensures !OwnedByOther(e, name, x)
  {
    forall n | n in e.files && n != name
      ensures !Inside(e, e.files[n], x)
    {
      assert Apart(e, e.files[name], e.files[n]);
    }
  }

  lemma OwnedMarked(e: Disk, x: int)
    requires Laid(e) && Owned(e, x)
    ensures 0 <= x < |e.bitmap| && e.bitmap[x]
  {
    var n :| n in e.files && Inside(e, e.files[n], x);
    assert Placed(e, e.files[n]);
  }

  lemma MovedBit(e: Disk, name: string, t: nat, bytes: nat, x: nat)
    requires Movable(e, name, t, bytes) && x < |e.bitmap|
    ensures Relocate(e, name, t, bytes).bitmap[x]
        <==> Inside(e, File(t, bytes), x) || OwnedByOther(e, name, x) || LeftBehind(e, name, x)
    ensures Inside(e, File(t, bytes), x) || OwnedByOther(e, name, x) ==> !LeftBehind(e, name, x)
    ensures Inside(e, File(t, bytes), x) ==> !OwnedByOther(e, name, x)
  {
    hide StartBit, BlocksPerBits, ReadText, Overlay, Encode;
    hide Laid;
    MovedFiles(e, name, t, bytes);
    OwnedSplit(e, name, x);
    if Owned(e, x) {
      OwnedMarked(e, x);
    }
    if Inside(e, e.files[name], x) {
      OwnAlone(e, name, x);
    }
  }

  lemma MovedOwned(e: Disk, name: string, t: nat, bytes: nat, x: int)
    requires Movable(e, name, t, bytes)
    ensures Owned(Relocate(e, name, t, bytes), x) <==> Inside(e, File(t, bytes), x) || OwnedByOther(e, name, x)
  {
    hide Laid, Relocate;
    MovedFiles(e, name, t, bytes);
    var m := Relocate(e, name, t, bytes);
    OwnedSplit(m, name, x);
    SameOwners(e, m, name, x);
  }

  /** After the move every file owns its own run. */
  lemma MovedLaid(e: Disk, name: string, t: nat, bytes: nat)
    requires Movable(e, name, t, bytes)
    ensures Laid(Relocate(e, name, t, bytes))
  {
    hide Relocate, StartBit, BlocksPerBits;
    MovedFiles(e, name, t, bytes);
    var m := Relocate(e, name, t, bytes);
    forall n | n in m.files
      ensures Placed(m, m.files[n])
    {
    }
    forall n | n in m.files && n != name
      ensures Apart(m, m.files[n], m.files[name]) && Apart(m, m.files[name], m.files[n])
    {
      var f, g := m.files[n], m.files[name];
      var x := if f.block < g.block then g.block else f.block;
      assert 0 <= x < |e.bitmap|;
      MovedBit(e, name, t, bytes, x);
      assert Inside(e, e.files[n], x) ==> OwnedByOther(e, name, x);
    }
    forall n, k | n in m.files && k in m.files && n != k
      ensures Apart(m, m.files[n], m.files[k])
    {
      if n != name && k != name {
        assert Apart(e, e.files[n], e.files[k]);
      }
    }
    forall n, x | n in m.files && Inside(m, m.files[n], x)
      ensures m.bitmap[x]
    {
      MovedMarked(e, name, t, bytes, n, x);
    }
  }

  lemma MovedMarked(e: Disk, name: string, t: nat, bytes: nat, n: string, x: int)
    requires Movable(e, name, t, bytes) && n in Moved(e, name, t, bytes).files && e.bs > 0
    requires Inside(Moved(e, name, t, bytes), Moved(e, name, t, bytes).files[n], x)
    ensures 0 <= x < |e.bitmap| && Moved(e, name, t, bytes).bitmap[x]
  {
    hide Relocate, StartBit, BlocksPerBits, LeftBehind, Orphan;
    var m := Moved(e, name, t, bytes);
    MovedFiles(e, name, t, bytes);
    assert Placed(m, m.files[n]);
    MovedBit(e, name, t, bytes, x);
    MovedOwned(e, name, t, bytes, x);
    assert Owned(m, x);
  }

  /** The move and the compaction after it; `order` lists the directory as the compaction finds it. */
  ghost predicate Shiftable(e: Disk, name: string, t: nat, bytes: nat, order: seq<string>) {
    Movable(e, name, t, bytes) && IsListing(Relocate(e, name, t, bytes).files, order)
  }

  lemma ShiftReady(e: Disk, name: string, t: nat, bytes: nat, order: seq<string>)
    requires Shiftable(e, name, t, bytes, order)
    ensures Ready(Moved(e, name, t, bytes), order) && Names(Moved(e, name, t, bytes), order)
  {
    hide Relocate, Movable, Laid, IsListing;
    MovedLaid(e, name, t, bytes);
    ReadyNames(Relocate(e, name, t, bytes), order);
  }

  function Shifted(e: Disk, name: string, t: nat, bytes: nat, order: seq<string>): (g: Disk)
    requires Names(Moved(e, name, t, bytes), order)
  {
    Compact(Moved(e, name, t, bytes), order)
  }

  /** The bitmap after the move and the compaction. */
  lemma ShiftedBit(e: Disk, name: string, t: nat, bytes: nat, order: seq<string>, x: nat)
    requires Shiftable(e, name, t, bytes, order) && x < |e.bitmap|
    requires Names(Moved(e, name, t, bytes), order)
    ensures Total(Moved(e, name, t, bytes), order) <= |e.bitmap|
    ensures Shifted(e, name, t, bytes, order).bitmap[x]
        <==> x < Total(Moved(e, name, t, bytes), order) || LeftBehind(e, name, x)
  {
    hide Relocate, IsListing, Names, Owned, OwnedByOther, StartBit, BlocksPerBits, Compact, Total, Ready;
    ShiftReady(e, name, t, bytes, order);
    CompactionBitmap(Moved(e, name, t, bytes), order, x);
    MovedBit(e, name, t, bytes, x);
    MovedOwned(e, name, t, bytes, x);
  }

  /** The run the file is moved to lies above every other file. */
  ghost predicate AboveOthers(e: Disk, name: string, t: int) {
    forall n :: n in e.files && n != name ==> e.files[n].block < t
  }

  lemma LastIffAbove(e: Disk, name: string, t: nat, bytes: nat, order: seq<string>, j: nat)
    requires Shiftable(e, name, t, bytes, order) && j < |order| && order[j] == name
    ensures AboveOthers(e, name, t) <==> j == |order| - 1
  {
    hide Relocate, StartBit, BlocksPerBits, Laid;
    MovedFiles(e, name, t, bytes);
    MovedLaid(e, name, t, bytes);
    var m := Relocate(e, name, t, bytes);
    if j < |order| - 1 {
      NamesLater(m, order, j, |order| - 1);
      assert e.files[order[|order| - 1]].block >= t;
    } else {
      forall n | n in e.files && n != name
        ensures e.files[n].block < t
      {
        var i :| 0 <= i < |order| && order[i] == n;
        NamesLater(m, order, i, j);
      }
    }
  }

  lemma NamesLater(m: Disk, order: seq<string>, i: nat, j: nat)
    requires Laid(m) && IsListing(m.files, order) && i < j < |order|
    ensures order[i] in m.files && order[j] in m.files && order[i] != order[j]
    ensures m.files[order[i]].block < m.files[order[j]].block
  {
    EarlierEndsFirst(m, order, i, j);
  }

  lemma TotalSplit(m: Disk, order: seq<string>, j: nat)
    requires Names(m, order) && j < |order|
    ensures Pos(m, order, j) + Blocks(m, Nth(m, order, j)) <= Total(m, order)
    ensures j == |order| - 1 <==> Pos(m, order, j) + Blocks(m, Nth(m, order, j)) == Total(m, order)
  {
    PosMonotone(m, order, j, |order|);
    if j < |order| - 1 {
      PosMonotone(m, order, j, j + 1);
      PosMonotone(m, order, j + 1, |order|);
    }
  }

  lemma RoomAfterPacked(e: Disk, name: string, t: nat, bytes: nat, order: seq<string>, toAdd: nat, end: nat)
    requires Shiftable(e, name, t, bytes, order) && Names(Moved(e, name, t, bytes), order) && toAdd > 0
    requires end <= Total(Moved(e, name, t, bytes), order)
    ensures var g, total := Shifted(e, name, t, bytes, order), Total(Moved(e, name, t, bytes), order);
            Available(g.bitmap, end, toAdd)
            <==> end == total && total + toAdd <= |e.bitmap|
                 && Clear(e, name, total, total + toAdd)
  {
    hide Relocate, Compact, Total, StartBit, BlocksPerBits, Laid, IsListing, Names, LeftBehind;
    var g, total := Shifted(e, name, t, bytes, order), Total(Moved(e, name, t, bytes), order);
    if Available(g.bitmap, end, toAdd) {
      ShiftedBit(e, name, t, bytes, order, end);
    }
    forall x | end <= x < end + toAdd && 0 <= x < |e.bitmap| && end == total
      ensures g.bitmap[x] <==> LeftBehind(e, name, x)
    {
      ShiftedBit(e, name, t, bytes, order, x);
    }
  }

  /**
   The extension check after compaction, for one block or more. It succeeds exactly when the file was
   moved above every other file, the disk has room above the packed files, and no mark without an owner is
   in the way.
   */
  lemma ExtensionCheck(e: Disk, name: string, t: nat, bytes: nat, order: seq<string>, toAdd: nat)
    requires Shiftable(e, name, t, bytes, order) && Names(Moved(e, name, t, bytes), order) && toAdd > 0
    ensures HasRoot(Shifted(e, name, t, bytes, order), name)
    ensures Shifted(e, name, t, bytes, order).files[name].size == bytes
    ensures var g, total := Shifted(e, name, t, bytes, order), Total(Moved(e, name, t, bytes), order);
            Extended(g, name, toAdd).1 == 1
            <==> AboveOthers(e, name, t) && total + toAdd <= |e.bitmap|
                 && Clear(e, name, total, total + toAdd)
  {
    hide Relocate, Compact, Total, Ready, StartBit, BlocksPerBits, AboveOthers, Movable, Clear;
    var m, g := Moved(e, name, t, bytes), Shifted(e, name, t, bytes, order);
    var total := Total(m, order);
    ShiftReady(e, name, t, bytes, order);
    MovedFiles(e, name, t, bytes);
    assert name in m.files;
    var j :| 0 <= j < |order| && order[j] == name;
    CompactionPreserves(m, order, j);
    LastIffAbove(e, name, t, bytes, order, j);
    TotalSplit(m, order, j);
    RoomAfterPacked(e, name, t, bytes, order, toAdd, Pos(m, order, j) + Blocks(m, Nth(m, order, j)));
  }
}
