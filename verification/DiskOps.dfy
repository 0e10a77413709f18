/**
 The operations of the file system on a disk value, the invariant that its runs keep, and what each
 operation does to the contents of the files.
 */
module DiskOps {
  import opened BitStrings
  import opened DiskModel
  import opened Moves

  // ----- the invariant -----

  const EMPTY := File(-1, 0)

  /** Every file is either fresh or owns a run in range, runs are disjoint, and every owned block is marked as taken. */
  ghost predicate Allotted(d: Disk) {
    && WellFormed(d)
    && (forall n :: n in d.files ==> d.files[n] == EMPTY || Placed(d, d.files[n]))
    && (forall n, m :: n in d.files && m in d.files && n != m ==> Separate(d, d.files[n], d.files[m]))
    && (forall n, x :: n in d.files && Inside(d, d.files[n], x) ==> d.bitmap[x])
  }

  /** A block marked as taken that no file owns. */
  ghost predicate Orphan(d: Disk, x: int)
    requires d.bs > 0
  {
    0 <= x < |d.bitmap| && d.bitmap[x] && !Owned(d, x)
  }

  /** An allotted disk on which a block is marked as taken exactly when a file owns it. */
  ghost predicate Consistent(d: Disk) {
    Allotted(d) && forall x :: !Orphan(d, x)
  }

  /** The disks have the same orphans. */
  ghost predicate SameOrphans(d: Disk, e: Disk) {
    d.bs > 0 && e.bs > 0 && forall x :: Orphan(e, x) <==> Orphan(d, x)
  }

  predicate Separate(d: Disk, f: File, g: File)
    requires d.bs > 0
  {
    f.block < 0 || g.block < 0 || Apart(d, f, g)
  }

  ghost predicate AllPlaced(d: Disk) {
    forall n :: n in d.files ==> d.files[n].block >= 0
  }

  lemma AllottedWellFormed(d: Disk)
    requires Allotted(d)
    ensures WellFormed(d)
  {
  }

  lemma AllottedLaid(d: Disk)
    requires Allotted(d) && AllPlaced(d)
    ensures Laid(d)
  {
    forall n, m | n in d.files && m in d.files && n != m
      ensures Apart(d, d.files[n], d.files[m])
    {
      assert Separate(d, d.files[n], d.files[m]);
    }
  }

  lemma OwnBlocksTaken(d: Disk, name: string)
    requires Allotted(d) && name in d.files
    ensures d.bs > 0 && forall x :: 0 <= x < |d.bitmap| && Inside(d, d.files[name], x) ==> d.bitmap[x]
  {
  }

  ghost predicate OwnedByOther(d: Disk, name: string, x: int)
    requires d.bs > 0
  {
    exists n :: n in d.files && n != name && Inside(d, d.files[n], x)
  }

  lemma OwnedSplit(d: Disk, name: string, x: int)
    requires d.bs > 0
    ensures Owned(d, x) <==> (name in d.files && Inside(d, d.files[name], x)) || OwnedByOther(d, name, x)
  {
    if name in d.files && Inside(d, d.files[name], x) {
    } else if Owned(d, x) {
      var n :| n in d.files && Inside(d, d.files[n], x);
      assert n != name;
    }
  }

  lemma SameFilesOwned(d: Disk, e: Disk, x: int)
    requires d.bs > 0 && e.bs == d.bs && e.files == d.files
    ensures Owned(e, x) <==> Owned(d, x)
  {
    if Owned(e, x) {
      var n :| n in e.files && Inside(e, e.files[n], x);
      assert Inside(d, d.files[n], x);
    }
    if Owned(d, x) {
      var n :| n in d.files && Inside(d, d.files[n], x);
      assert Inside(e, e.files[n], x);
    }
  }

  /** The two disks have the same files, other than `name`. */
  ghost predicate SameOthers(d: Disk, e: Disk, name: string) {
    && e.bs == d.bs && |e.bitmap| == |d.bitmap| && |e.blocks| == |d.blocks|
    && (forall n :: n != name ==> (n in e.files <==> n in d.files))
    && (forall n :: n != name && n in d.files ==> e.files[n] == d.files[n])
  }

  lemma SameOwners(d: Disk, e: Disk, name: string, x: int)
    requires d.bs > 0 && SameOthers(d, e, name)
    ensures OwnedByOther(d, name, x) <==> OwnedByOther(e, name, x)
  {
    if OwnedByOther(d, name, x) {
      var n :| n in d.files && n != name && Inside(d, d.files[n], x);
      assert Inside(e, e.files[n], x);
    }
    if OwnedByOther(e, name, x) {
      var n :| n in e.files && n != name && Inside(e, e.files[n], x);
      assert Inside(d, d.files[n], x);
    }
  }

  /**
   One file's record changes and the bitmap follows it: the shape of every step that keeps the invariant. The blocks
   the file has afterwards were free or its own; marks without an owner stay.
   */
  lemma ChangeOneFile(d: Disk, e: Disk, name: string)
    requires Allotted(d) && SameOthers(d, e, name)
    requires name in e.files ==>
               e.files[name] == EMPTY
               || (Placed(e, e.files[name])
                   && forall x :: Inside(e, e.files[name], x) ==> !OwnedByOther(d, name, x) && !Orphan(d, x))
    requires forall x :: 0 <= x < |d.bitmap| ==>
               (e.bitmap[x] <==> (name in e.files && Inside(e, e.files[name], x))
                                 || OwnedByOther(d, name, x) || Orphan(d, x))
    ensures Allotted(e) && SameOrphans(d, e)
  {
    hide StartBit, BlocksPerBits;
    forall n, x | n in e.files && Inside(e, e.files[n], x)
      ensures e.bitmap[x]
    {
      assert n != name ==> OwnedByOther(d, name, x);
    }
    forall x
      ensures Orphan(e, x) <==> Orphan(d, x)
    {
      OwnedSplit(e, name, x);
      OwnedSplit(d, name, x);
      SameOwners(d, e, name, x);
    }
    forall n | n in e.files && n != name && name in e.files
      ensures Separate(e, e.files[n], e.files[name])
    {
      var f, g := e.files[n], e.files[name];
      var x := if f.block < g.block then g.block else f.block;
      assert Inside(e, g, x) ==> !OwnedByOther(d, name, x);
      assert Inside(d, d.files[n], x) ==> OwnedByOther(d, name, x);
    }
    forall n, m | n in e.files && m in e.files && n != m
      ensures Separate(e, e.files[n], e.files[m])
    {
      if n != name && m != name {
        assert Separate(d, d.files[n], d.files[m]);
      }
    }
  }

  // ----- create and delete -----

  function Create(d: Disk, name: string): (e: Disk) {
    if name in d.files then d else d.(files := d.files[name := EMPTY])
  }

  lemma CreateKeeps(d: Disk, name: string)
    requires Allotted(d)
    ensures Allotted(Create(d, name)) && SameOrphans(d, Create(d, name))
  {
    if name !in d.files {
      forall x | 0 <= x < |d.bitmap|
        ensures d.bitmap[x] <==> OwnedByOther(d, name, x) || Orphan(d, x)
      {
        OwnedSplit(d, name, x);
      }
      ChangeOneFile(d, Create(d, name), name);
    }
  }

  /** The loop that frees the blocks runs over nothing for a file that has none. */
  function Delete(d: Disk, name: string): (e: Disk) {
    if !WellFormed(d) || name !in d.files then d
    else
      var f := d.files[name];
      d.(files := d.files - {name},
         bitmap := if Placed(d, f) then SetRange(d.bitmap, f.block, f.block + Blocks(d, f), false) else d.bitmap)
  }

  /** A created file is there, empty, and deleting it leaves the disk as it was. */
  lemma DeleteUndoesCreate(d: Disk, name: string)
    requires WellFormed(d) && name !in d.files
    ensures name in Create(d, name).files && Create(d, name).files[name].size == 0
    ensures Delete(Create(d, name), name) == d
  {
    assert d.files[name := EMPTY] - {name} == d.files;
  }

  lemma OthersDoNotOverlap(d: Disk, name: string, x: int)
    requires Allotted(d) && name in d.files && Inside(d, d.files[name], x)
    ensures !OwnedByOther(d, name, x) && !Orphan(d, x)
  {
    forall n | n in d.files && n != name
      ensures !Inside(d, d.files[n], x)
    {
      assert Separate(d, d.files[name], d.files[n]);
    }
  }

  lemma DeleteKeeps(d: Disk, name: string)
    requires Allotted(d)
    ensures Allotted(Delete(d, name)) && name !in Delete(d, name).files && SameOrphans(d, Delete(d, name))
  {
    hide StartBit, BlocksPerBits;
    if name in d.files {
      var e := Delete(d, name);
      forall x | 0 <= x < |d.bitmap|
        ensures e.bitmap[x] <==> OwnedByOther(d, name, x) || Orphan(d, x)
      {
        OwnedSplit(d, name, x);
        if Inside(d, d.files[name], x) {
          OthersDoNotOverlap(d, name, x);
        }
      }
      ChangeOneFile(d, e, name);
    }
  }

  // ----- write -----

  /** A write in range of the bit array; the position is in bits from the start of the file. */
  predicate CanWrite(d: Disk, name: string, pointer: nat, data: seq<byte>) {
    && WellFormed(d) && name in d.files && d.files[name].block >= 0
    && StartBit(d.bs, d.files[name].block) + pointer + 8 * |data| <= |d.blocks|
  }

  function Write(d: Disk, name: string, pointer: nat, data: seq<byte>): (e: Disk)
    ensures e.bs == d.bs && e.bitmap == d.bitmap && e.files == d.files && |e.blocks| == |d.blocks|
  {
    if !CanWrite(d, name, pointer, data) then d
    else d.(blocks := Overlay(d.blocks, StartBit(d.bs, d.files[name].block) + pointer, Encode(data)))
  }

  lemma WriteKeeps(d: Disk, name: string, pointer: nat, data: seq<byte>)
    requires Allotted(d)
    ensures Allotted(Write(d, name, pointer, data)) && SameOrphans(d, Write(d, name, pointer, data))
  {
    hide StartBit, BlocksPerBits, Overlay;
    var e := Write(d, name, pointer, data);
    forall x
      ensures Owned(e, x) <==> Owned(d, x)
    {
      SameFilesOwned(d, e, x);
    }
  }

  /** What a write of text at bit `pointer` is read back as: the text again. */
  lemma WriteThenRead(d: Disk, name: string, pointer: nat, data: seq<byte>)
    requires CanWrite(d, name, pointer, data) && |data| > 0 && ZeroFree(data)
    ensures var at := StartBit(d.bs, d.files[name].block) + pointer;
            ReadText(Write(d, name, pointer, data).blocks, at, |data| - 1) == data
  {
    var at := StartBit(d.bs, d.files[name].block) + pointer;
    var now := Write(d, name, pointer, data).blocks[at..at + 8 * |data|];
    OverlayRead(d.blocks, at, Encode(data), 8 * |data|);
    assert now == Encode(data);
    DecodeEncode(data);
    NonZeroKeepsAll(data);
  }

  lemma ReadBack(now: seq<bool>, data: seq<byte>, next: seq<bool>)
    requires ZeroFree(data) && |next| == 8 && now == Encode(data) + next
    ensures NonZero(Decode(now)) == data <==> Value(next) == 0
  {
    hide Encode, Decode, Value;
    DecodeParts(now, Encode(data), next, |data|);
    DecodeEncode(data);
    OneByte(next);
    NonZeroConcat(data, Decode(next));
    NonZeroKeepsAll(data);
    assert Decode(next)[..0] == [];
  }

  /**
   The text asked for with its own length: the read goes one byte too far, so it is the written text
   exactly when the byte after it is zero.
   */
  lemma WriteThenReadAll(d: Disk, name: string, pointer: nat, data: seq<byte>)
    requires CanWrite(d, name, pointer, data) && ZeroFree(data)
    requires StartBit(d.bs, d.files[name].block) + pointer + 8 * (|data| + 1) <= |d.blocks|
    ensures var at := StartBit(d.bs, d.files[name].block) + pointer;
            var next := d.blocks[at + 8 * |data|..at + 8 * (|data| + 1)];
            ReadText(Write(d, name, pointer, data).blocks, at, |data|) == data <==> Value(next) == 0
  {
    hide StartBit, Encode, Decode, Value, NonZero, Overlay;
    var n := |data|;
    var at := StartBit(d.bs, d.files[name].block) + pointer;
    var next := d.blocks[at + 8 * n..at + 8 * (n + 1)];
    var now := Write(d, name, pointer, data).blocks[at..at + 8 * (n + 1)];
    OverlayRead(d.blocks, at, Encode(data), 8 * (n + 1));
    ReadBack(now, data, next);
  }
}
