/**
 Truncation: in place when the blocks after the file allow it, otherwise by moving the file to the
 highest free run, compacting the disk and extending the file there.
 */
module Truncate {
  import opened CTypes
  import opened DiskModel
  import opened DiskOps

  predicate Available(bitmap: seq<bool>, start: nat, count: nat) {
    count == 0 || FreeRun(bitmap, start, count)
  }

  predicate Known(d: Disk, name: string) {
    WellFormed(d) && name in d.files && (d.files[name] == EMPTY || Placed(d, d.files[name]))
  }

  /** A file without blocks is first given the lowest free one, if there is any. */
  function Rooted(d: Disk, name: string): (e: Disk)
    requires Known(d, name)
    ensures WellFormed(e) && e.bs == d.bs && e.blocks == d.blocks && |e.bitmap| == |d.bitmap|
    ensures e.files.Keys == d.files.Keys
  {
    var b := LowestFree(d.bitmap, 0);
    if d.files[name].block >= 0 || b < 0 then d
    else d.(bitmap := SetRange(d.bitmap, b, b + 1, true), files := d.files[name := File(Stored(b), d.files[name].size)])
  }

  lemma RootedPlaced(d: Disk, name: string)
    requires Known(d, name)
    ensures Known(Rooted(d, name), name)
    ensures Rooted(d, name).files[name].block >= 0 <==> d.files[name].block >= 0 || exists x :: 0 <= x < |d.bitmap| && !d.bitmap[x]
    ensures Rooted(d, name).files[name].block >= 0 ==> Placed(Rooted(d, name), Rooted(d, name).files[name])
  {
    hide BlocksPerBits, SetRange, LowestFree;
    EmptyBlocks(d);
  }

  lemma EmptyBlocks(d: Disk)
    requires WellFormed(d)
    ensures Blocks(d, EMPTY) == 1 && forall b :: Blocks(d, File(b, 0)) == 1
  {
    assert (d.bs - 1) % UINT32 == d.bs - 1;
  }

  predicate HasRoot(e: Disk, name: string) {
    WellFormed(e) && name in e.files && Placed(e, e.files[name])
  }

  /** The blocks the new size needs are the file's own, or free and next to them. */
  predicate FitsInPlace(e: Disk, name: string, newSize: nat)
    requires HasRoot(e, name)
  {
    var f := e.files[name];
    var used, need := Blocks(e, f), BlocksPerBits(newSize, e.bs);
    need < used || Available(e.bitmap, f.block + used, need - used)
  }

  function Resized(e: Disk, name: string, newSize: nat): (r: Disk)
    requires HasRoot(e, name) && FitsInPlace(e, name, newSize)
  {
    var f := e.files[name];
    var used, need := Blocks(e, f), BlocksPerBits(newSize, e.bs);
    e.(bitmap := if need < used then SetRange(e.bitmap, f.block + need, f.block + used, false)
                 else SetRange(e.bitmap, f.block + used, f.block + need, true),
       files := e.files[name := File(f.block, Stored(newSize))])
  }

  /** Where the compacting branch moves the file to, or -1. */
  function Target(e: Disk, name: string): (t: int)
    requires HasRoot(e, name)
    ensures t == -1 || FreeRun(e.bitmap, t, Blocks(e, e.files[name]))
    ensures forall s :: FreeRun(e.bitmap, s, Blocks(e, e.files[name])) ==> 0 <= s <= t
  {
    HighestRun(e.bitmap, Blocks(e, e.files[name]), |e.bitmap|)
  }

  /** The extension after compaction; the size record is not written here. */
  function Extended(g: Disk, name: string, toAdd: nat): (r: (Disk, int))
    requires HasRoot(g, name)
  {
    var f := g.files[name];
    var end := f.block + Blocks(g, f);
    if Available(g.bitmap, end, toAdd) then (g.(bitmap := SetRange(g.bitmap, f.block, end + toAdd, true)), 1)
    else (g, 0)
  }

  lemma OneBlockWhenEmpty(bs: nat)
    requires 0 < bs <= LIMIT
    ensures BlocksPerBits(0, bs) == 1
  {
    assert (bs - 1) % UINT32 == bs - 1;
  }

  lemma RunAfterTaken(bits: seq<bool>, b: nat, need: nat)
    requires b < |bits| && !bits[b] && need > 0
    ensures Available(SetRange(bits, b, b + 1, true), b + 1, need - 1) <==> FreeRun(bits, b, need)
  {
    var now := SetRange(bits, b, b + 1, true);
    assert forall x :: b < x < |bits| ==> now[x] == bits[x];
  }

  /**
   A fresh file is rooted at the lowest free block whatever it needs, so its first truncate happens in
   place exactly when that block starts a long enough run, even if a longer run lies elsewhere.
   */
  lemma FreshFitsIff(d: Disk, name: string, newSize: nat)
    requires Known(d, name) && d.files[name] == EMPTY && LowestFree(d.bitmap, 0) >= 0
    ensures HasRoot(Rooted(d, name), name)
    ensures FitsInPlace(Rooted(d, name), name, newSize)
        <==> FreeRun(d.bitmap, LowestFree(d.bitmap, 0), BlocksPerBits(newSize, d.bs))
  {
    hide StartBit, LowestFree, Placed, BlocksPerBits, SetRange;
    RootedPlaced(d, name);
    var e, b, need := Rooted(d, name), LowestFree(d.bitmap, 0), BlocksPerBits(newSize, d.bs);
    OneBlockWhenEmpty(d.bs);
    RunAfterTaken(d.bitmap, b, need);
  }

  // ----- in place -----

  lemma RootedKeeps(d: Disk, name: string)
    requires Allotted(d) && name in d.files
    ensures Known(d, name) && Allotted(Rooted(d, name)) && SameOrphans(d, Rooted(d, name))
  {
    hide BlocksPerBits, LowestFree;
    var e := Rooted(d, name);
    if e != d {
      RootedPlaced(d, name);
      var b := LowestFree(d.bitmap, 0);
      EmptyBlocks(e);
      forall x | 0 <= x < |d.bitmap|
        ensures e.bitmap[x] <==> Inside(e, e.files[name], x) || OwnedByOther(d, name, x) || Orphan(d, x)
      {
        OwnedSplit(d, name, x);
      }
      OwnedSplit(d, name, b);
      ChangeOneFile(d, e, name);
    }
  }

  /** Below the limit a truncate in place keeps the invariant. */
  lemma ResizedKeeps(e: Disk, name: string, newSize: nat)
    requires Allotted(e) && HasRoot(e, name) && FitsInPlace(e, name, newSize) && newSize < LIMIT
    ensures Allotted(Resized(e, name, newSize)) && SameOrphans(e, Resized(e, name, newSize))
  {
    hide StartBit, BlocksPerBits;
    var r, f := Resized(e, name, newSize), e.files[name];
    assert r.files[name] == File(f.block, newSize);
    var used, need := Blocks(e, f), BlocksPerBits(newSize, e.bs);
    forall x
      ensures Inside(e, f, x) ==> 0 <= x < |e.bitmap| && e.bitmap[x] && !OwnedByOther(e, name, x) && !Orphan(e, x)
      ensures f.block + used <= x < f.block + need ==> !OwnedByOther(e, name, x) && !Orphan(e, x)
      ensures 0 <= x < |e.bitmap| ==> (e.bitmap[x] <==> Inside(e, f, x) || OwnedByOther(e, name, x) || Orphan(e, x))
    {
      OwnedSplit(e, name, x);
      if Inside(e, f, x) {
        OthersDoNotOverlap(e, name, x);
      }
    }
    forall x | 0 <= x < |e.bitmap|
      ensures r.bitmap[x] <==> Inside(r, r.files[name], x) || OwnedByOther(e, name, x) || Orphan(e, x)
    {
      assert Inside(r, r.files[name], x) <==> f.block <= x < f.block + need;
    }
    ChangeOneFile(e, r, name);
  }

  lemma ResizedPlaced(e: Disk, name: string, newSize: nat, n: string)
    requires HasRoot(e, name) && FitsInPlace(e, name, newSize) && newSize < LIMIT
    requires n in e.files && Placed(e, e.files[n])
    ensures var r := Resized(e, name, newSize);
            WellFormed(r) && n in r.files && Placed(r, r.files[n]) && r.blocks == e.blocks
            && r.files[n] == if n == name then File(e.files[n].block, newSize) else e.files[n]
  {
    hide StartBit, BlocksPerBits, SetRange;
  }

  /** A truncate in place keeps the first bytes of the file and every other file. */
  lemma ResizedContent(e: Disk, name: string, newSize: nat, n: string)
    requires Allotted(e) && HasRoot(e, name) && FitsInPlace(e, name, newSize) && newSize < LIMIT
    requires n in e.files && Placed(e, e.files[n])
    ensures var r := Resized(e, name, newSize);
            && WellFormed(r) && n in r.files && Placed(r, r.files[n])
            && var kept := if n == name then Min(newSize, e.files[n].size) else e.files[n].size;
               && (n != name ==> r.files[n] == e.files[n])
               && (n == name ==> r.files[n] == File(e.files[n].block, newSize))
               && Content(r, r.files[n])[..8 * kept] == Content(e, e.files[n])[..8 * kept]
  {
    hide StartBit, BlocksPerBits, Allotted, SetRange;
    ResizedKeeps(e, name, newSize);
    var r, f := Resized(e, name, newSize), e.files[n];
    ContentInRange(e, f);
    ResizedPlaced(e, name, newSize, n);
    ContentInRange(r, r.files[n]);
    var at, kept := StartBit(e.bs, f.block), if n == name then Min(newSize, f.size) else f.size;
    assert Content(e, f)[..8 * kept] == e.blocks[at..at + 8 * kept];
    assert Content(r, r.files[n])[..8 * kept] == r.blocks[at..at + 8 * kept];
  }
}
