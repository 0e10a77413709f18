/**
 The DialFS interface in place: a bitmap and a bit array of contents that are set and cleared bit by bit,
 and the metadata records. Each method is proved against the function of DiskModel, DiskOps or
 TruncateOutcome that says what it does to the disk as a whole.
 */
module DialFs {
  import opened CTypes
  import opened BitStrings
  import opened DiskModel
  import opened Moves
  import opened Compaction
  import opened DiskOps
  import opened Truncate
  import opened Extension
  import opened TruncateOutcome
  import opened TruncateAnswers

  // ----- the downward search -----

  /** Every run of `k` free blocks ends at or below block `i`. */
  ghost predicate NoRunAbove(bits: seq<bool>, k: nat, i: int) {
    forall s :: FreeRun(bits, s, k) ==> s + k <= i + 1
  }

  /** A taken block, or the lower end of the disk, `j` blocks below `i`: no run ends between them. */
  lemma JumpLosesNoRun(bits: seq<bool>, k: nat, i: nat, j: nat)
    requires j < k && i < |bits| && NoRunAbove(bits, k, i)
    requires i - j < 0 || bits[i - j]
    ensures NoRunAbove(bits, k, i - (j + 1))
  {
    assert i - j >= 0 ==> bits[i - j];
  }

  /** A stretch of taken blocks around `i` that starts at `b`: no run ends in it. */
  lemma SkipLosesNoRun(bits: seq<bool>, k: nat, i: nat, b: nat)
    requires k > 0 && b <= i < |bits| && NoRunAbove(bits, k, i)
    requires forall x :: b <= x <= i ==> bits[x]
    ensures NoRunAbove(bits, k, b - 1)
  {
    forall s | FreeRun(bits, s, k)
      ensures s + k <= b
    {
      assert !bits[s + k - 1];
    }
  }

  datatype Text = Missing | Text(text: seq<byte>)

  class Device {
    const blockSize: nat
    const bitmap: array<bool>
    const blocks: array<bool>
    var files: map<string, File>

    constructor (blockSize: nat, blockCount: nat, tail: nat)
      requires 0 < blockSize <= LIMIT && blockCount < LIMIT && tail >= 8
      requires StartBit(blockSize, blockCount) + tail <= 0x8000_0000
      ensures Valid() && Consistent(View()) && files == map[]
      ensures fresh(bitmap) && fresh(blocks)
    {
      this.blockSize := blockSize;
      bitmap := new bool[blockCount](i => false);
      blocks := new bool[StartBit(blockSize, blockCount) + tail](i => false);
      files := map[];
    }

    function View(): (d: Disk)
      reads this, bitmap, blocks
    {
      Disk(blockSize, bitmap[..], blocks[..], files)
    }

    predicate Valid()
      reads this, bitmap, blocks
    {
      bitmap != blocks && WellFormed(View())
    }

    // ----- the bitmap -----

    method AssignBits(lo: nat, hi: nat)
      requires Valid() && lo <= hi <= bitmap.Length
      modifies bitmap
      ensures bitmap[..] == SetRange(old(bitmap[..]), lo, hi, true)
    {
      for i := lo to hi
        invariant bitmap[..] == SetRange(old(bitmap[..]), lo, i, true)
      {
        bitmap[i] := true;
      }
    }

    /** Clears the blocks from the last one down. */
    method DeallocateBits(lo: nat, hi: nat)
      requires Valid() && lo <= hi <= bitmap.Length
      modifies bitmap
      ensures bitmap[..] == SetRange(old(bitmap[..]), lo, hi, false)
    {
      for i := hi downto lo
        invariant bitmap[..] == SetRange(old(bitmap[..]), i, hi, false)
      {
        bitmap[i] := false;
      }
    }

    method NextBlocksAvailable(start: nat, count: nat) returns (ok: bool)
      requires Valid()
      ensures ok <==> Available(bitmap[..], start, count)
    {
      var i := start;
      while i < start + count
        invariant start <= i <= start + count
        invariant i == start || FreeRun(bitmap[..], start, i - start)
      {
        if i >= bitmap.Length || bitmap[i] {
          return false;
        }
        i := i + 1;
      }
      return true;
    }

    /** The unsigned reading of BLOQUE_INICIAL. */
    function InitialBlock(name: string): (b: nat)
      reads this
      requires name in files
    {
      if files[name].block < 0 then UINT32 - 1 else files[name].block
    }

    /**
     The search for a fresh file's first block. The inner loop looks at the same bit every time round,
     so however many blocks are asked for, the result is the lowest free one.
     */
    method CanRelocate(name: string, necessaryBlocks: nat) returns (r: int)
      requires Valid() && name in files && files[name].block < 0 && necessaryBlocks > 0
      ensures r == LowestFree(bitmap[..], 0)
    {
      var i := 0;
      while i < bitmap.Length
        invariant 0 <= i <= bitmap.Length
        invariant LowestFree(bitmap[..], 0) == LowestFree(bitmap[..], i)
      {
        var j := 0;
        if i == InitialBlock(name) {
          assert false;
        }
        while j < necessaryBlocks
          invariant 0 <= j <= necessaryBlocks
          invariant j > 0 ==> !bitmap[i]
        {
          if bitmap[i] || j == necessaryBlocks {
            break;
          }
          j := j + 1;
        }
        if j == necessaryBlocks {
          return i;
        }
        assert bitmap[i];
        i := i + j + 1;
      }
      return -1;
    }

    /**
     The search for the highest run of free blocks, from the last block down. It skips the file's own
     blocks and jumps over a taken block, and misses no run.
     */
    method CanRelocateAtTheEnd(name: string, necessaryBlocks: nat) returns (r: int)
      requires Valid() && name in files && necessaryBlocks > 0
      requires forall x :: 0 <= x < bitmap.Length && Inside(View(), files[name], x) ==> bitmap[x]
      requires files[name].block >= 0 ==> Placed(View(), files[name])
      ensures r == HighestRun(bitmap[..], necessaryBlocks, bitmap.Length)
    {
      hide StartBit, BlocksPerBits;
      var initialBlock: int := InitialBlock(name);
      var fileBlocks := BlocksPerBits(files[name].size, blockSize);
      ghost var bits := bitmap[..];
      var i: int := bitmap.Length - 1;
      while i >= 0
        invariant -2 <= i < bitmap.Length
        invariant NoRunAbove(bits, necessaryBlocks, i)
        decreases i
      {
        if i >= initialBlock && i < initialBlock + fileBlocks {
          SkipLosesNoRun(bits, necessaryBlocks, i, initialBlock);
          i := initialBlock - 1;
          continue;
        }
        var j := FreeDown(i, necessaryBlocks);
        if j == necessaryBlocks {
          assert FreeRun(bits, i - necessaryBlocks + 1, necessaryBlocks);
          return i - necessaryBlocks + 1;
        }
        JumpLosesNoRun(bits, necessaryBlocks, i, j);
        i := i - (j + 1);
      }
      return -1;
    }

    /** How many blocks from `i` down are free, up to `k`. */
    method FreeDown(i: nat, k: nat) returns (j: nat)
      requires i < bitmap.Length
      ensures j <= k && j <= i + 1
      ensures forall x :: i - j < x <= i ==> !bitmap[x]
      ensures j < k ==> i - j < 0 || bitmap[i - j]
    {
      j := 0;
      while j < k && i - j >= 0 && !bitmap[i - j]
        invariant j <= k && j <= i + 1
        invariant forall x :: i - j < x <= i ==> !bitmap[x]
      {
        j := j + 1;
      }
    }

    // ----- contents -----

    /** One byte of the bit array, through its text of eight binary digits. */
    method ReadByte(at: nat) returns (b: byte)
      requires at + 8 <= blocks.Length
      ensures b == Value(blocks[..][at..at + 8])
    {
      var binary := [];
      ghost var bits := blocks[..];
      for j := 0 to 8
        invariant binary == bits[at..at + j]
      {
        binary := binary + [blocks[at + j]];
      }
      var ascii := BinaryToInt8Bits(binary);
      ByteRange(binary);
      b := ascii;
    }

    /** The text starts at a bit position; a missing file gives no text. */
    method FsRead(name: string, pointer: nat, dataSize: nat) returns (r: Text)
      requires Valid()
      requires name in files ==>
                 files[name].block >= 0
                 && StartBit(blockSize, files[name].block) + pointer + 8 * (dataSize + 1) <= blocks.Length
      ensures r == if name !in files then Missing
                   else Text(ReadText(blocks[..], StartBit(blockSize, files[name].block) + pointer, dataSize))
    {
      hide StartBit, WellFormed;
      if name !in files {
        return Missing;
      }
      var start := StartBit(blockSize, files[name].block) + pointer;
      var text := ReadBytes(start, dataSize + 1);
      return Text(text);
    }

    /** The loop of a read: `n` bytes, each appended to the text unless it is zero. */
    method ReadBytes(start: nat, n: nat) returns (text: seq<byte>)
      requires start + 8 * n <= blocks.Length
      ensures text == NonZero(Decode(blocks[..][start..start + 8 * n]))
    {
      hide NonZero, Decode, Value;
      text := [];
      ghost var bits := blocks[..];
      NothingRead(bits, start);
      var i := 0;
      while i < n
        invariant i <= n
        invariant text == NonZero(Decode(bits[start..start + 8 * i]))
      {
        var character := ReadByte(start + 8 * i);
        ByteRead(bits, start, i);
        if character != 0 {
          text := text + [character];
        }
        i := i + 1;
      }
    }

    /** Sets and clears eight bits for every character of the text. */
    method FsWrite(name: string, pointer: nat, data: seq<byte>)
      requires Valid()
      requires name in files ==> CanWrite(View(), name, pointer, data)
      modifies blocks
      ensures Valid() && View() == Write(old(View()), name, pointer, data)
    {
      hide StartBit;
      if name !in files {
        return;
      }
      WriteBytes(StartBit(blockSize, files[name].block) + pointer, data);
    }

    method WriteBytes(start: nat, data: seq<byte>)
      requires start + 8 * |data| <= blocks.Length
      modifies blocks
      ensures blocks[..] == Overlay(old(blocks[..]), start, Encode(data))
    {
      ghost var was := blocks[..];
      var i := 0;
      assert Encode(data[..0]) == [];
      while i < |data|
        invariant i <= |data|
        invariant blocks[..] == Overlay(was, start, Encode(data[..i]))
      {
        ghost var before := blocks[..];
        WriteByte(start + 8 * i, data[i]);
        OverlayNext(was, start, data, i);
        i := i + 1;
      }
      assert data[..|data|] == data;
    }

    method WriteByte(at: nat, b: byte)
      requires at + 8 <= blocks.Length
      modifies blocks
      ensures blocks[..] == Overlay(old(blocks[..]), at, BitsOf(8, b))
    {
      var binary := IntToBinary8Bits(b);
      ghost var was := blocks[..];
      for j := 0 to 8
        invariant forall x {:trigger blocks[x]} :: 0 <= x < blocks.Length ==>
                    blocks[x] == if at <= x < at + j then binary[x - at] else was[x]
      {
        blocks[at + j] := binary[j];
      }
    }

    // ----- moving and compacting -----

    method Realocate(name: string, newBlock: nat, newSize: nat)
      requires Valid() && CanMove(View(), name, newBlock, newSize)
      modifies this, bitmap, blocks
      ensures Valid() && View() == Relocate(old(View()), name, newBlock, newSize)
    {
      hide StartBit, BlocksPerBits, ReadText, Overlay, Encode;
      ghost var was := View();
      MoveInRange(was, name, newBlock, newSize);
      var f := files[name];
      var newBlocks, used := BlocksPerBits(newSize, blockSize), BlocksPerBits(f.size, blockSize);
      var buffer := FsRead(name, 0, f.size);
      if f.block > 0 {
        DeallocateBits(f.block, f.block + used);
      }
      files := files[name := File(Stored(newBlock), f.size)];
      AssignBits(newBlock, newBlock + newBlocks);
      files := files[name := File(Stored(newBlock), Stored(newSize))];
      assert Stored(newBlock) == newBlock;
      WriteBytes(StartBit(blockSize, newBlock), buffer.text);
    }

    /** The directory, listed in any order and sorted by first block. */
    method ListMetadata() returns (order: seq<string>)
      ensures IsListing(files, order)
    {
      order := [];
      var rest := files.Keys;
      while rest != {}
        invariant rest <= files.Keys
        invariant forall n :: n in files ==> (n in order <==> n !in rest)
        invariant forall i :: 0 <= i < |order| ==> order[i] in files
        invariant forall i, j :: 0 <= i < j < |order| ==> order[i] != order[j]
        invariant forall i, j :: 0 <= i < j < |order| ==> files[order[i]].block <= files[order[j]].block
        invariant forall i, n :: 0 <= i < |order| && n in rest ==> files[order[i]].block <= files[n].block
      {
        SomeLeast(rest, files);
        var n :| n in rest && IsLeast(n, rest, files);
        order := order + [n];
        rest := rest - {n};
      }
    }
  
    /** Slides every file down, in the order of the listing taken at the start. */
    method Compaction() returns (order: seq<string>)
      requires Valid() && Laid(View())
      modifies this, bitmap, blocks
      ensures Valid() && IsListing(old(files), order) && Names(old(View()), order)
      ensures View() == Compact(old(View()), order)
    {
      hide StartBit, BlocksPerBits, Laid, IsListing, Names, WellFormed, Slide, Compacted, Pos, Nth, CanMove;
      ghost var was := View();
      ghost var listed := files;
      order := ListMetadata();
      ReadyNames(was, order);
      var sizes := SizesListed(order);
      var newPosition := 0;
      NoneCompacted(was, order);
      for i := 0 to |order|
        invariant Valid() && View() == Compacted(was, order, i)
        invariant newPosition == Pos(was, order, i)
      {
        OneCompacted(was, order, i);
        SlideReady(was, order, i);
        SlideFiles(View(), order[i], Nth(was, order, i), newPosition);
        NthFile(was, order, i);
        MoveListed(order[i], sizes[i], newPosition);
        newPosition := newPosition + BlocksPerBits(sizes[i].size, blockSize);
      }
    }

    /** The records as the listing reads them, before anything moves. */
    method SizesListed(order: seq<string>) returns (records: seq<File>)
      requires Names(View(), order)
      ensures |records| == |order|
      ensures forall i :: 0 <= i < |order| ==> records[i] == Nth(View(), order, i)
    {
      records := [];
      for i := 0 to |order|
        invariant |records| == i
        invariant forall k :: 0 <= k < i ==> records[k] == Nth(View(), order, k)
      {
        records := records + [files[order[i]]];
      }
    }

    method MoveListed(name: string, listed: File, newPosition: nat)
      requires Valid() && CanMove(View(), name, newPosition, listed.size)
      modifies this, bitmap, blocks
      ensures Valid() && View() == Slide(old(View()), name, listed, newPosition)
    {
      hide StartBit, BlocksPerBits, Relocate, CanMove;
      if listed.block != newPosition {
        Realocate(name, newPosition, listed.size);
      }
    }

    // ----- create, delete, truncate -----

    method FsCreate(name: string)
      requires Valid()
      modifies this
      ensures Valid() && View() == Create(old(View()), name)
    {
      hide StartBit, BlocksPerBits;
      if name in files {
        return;
      }
      files := files[name := File(-1, 0)];
    }

    method FsDelete(name: string)
      requires Valid() && (name in files ==> Known(View(), name))
      modifies this, bitmap
      ensures Valid() && View() == Delete(old(View()), name)
    {
      hide StartBit, BlocksPerBits;
      if name !in files {
        return;
      }
      var f := files[name];
      if f.block >= 0 {
        DeallocateBits(f.block, f.block + BlocksPerBits(f.size, blockSize));
      }
      files := files - {name};
    }

    /** A fresh file gets its first block here, whatever number of blocks it will need. */
    method GiveFirstBlock(name: string, newBlocks: nat)
      requires Valid() && name in files && Known(View(), name) && newBlocks > 0
      modifies this, bitmap
      ensures Valid() && View() == Rooted(old(View()), name)
    {
      hide StartBit, BlocksPerBits;
      if files[name].block == -1 {
        var newInitBlock := CanRelocate(name, newBlocks);
        if newInitBlock >= 0 {
          AssignBits(newInitBlock, newInitBlock + 1);
          files := files[name := File(Stored(newInitBlock), files[name].size)];
        }
      }
    }

    method ResizeInPlace(name: string, newSize: nat)
      requires Valid() && HasRoot(View(), name) && FitsInPlace(View(), name, newSize)
      modifies this, bitmap
      ensures Valid() && View() == Resized(old(View()), name, newSize)
    {
      hide StartBit, BlocksPerBits;
      var f := files[name];
      var used, need := BlocksPerBits(f.size, blockSize), BlocksPerBits(newSize, blockSize);
      if used <= need {
        AssignBits(f.block + used, f.block + need);
      } else {
        DeallocateBits(f.block + need, f.block + used);
      }
      files := files[name := File(f.block, Stored(newSize))];
    }

    /** Move to the target, compact, and extend there if the blocks after the file allow it. */
    method CompactAndExtend(name: string, target: nat, used: nat, toAdd: nat) returns (r: int, order: seq<string>)
      requires Valid() && HasRoot(View(), name) && used == Blocks(View(), files[name]) && toAdd > 0
      requires Movable(View(), name, target, used)
      modifies this, bitmap, blocks
      ensures Shiftable(old(View()), name, target, used, order)
      ensures Names(Moved(old(View()), name, target, used), order)
      ensures HasRoot(Shifted(old(View()), name, target, used, order), name)
      ensures Valid() && (View(), r) == Extended(Shifted(old(View()), name, target, used, order), name, toAdd)
    {
      hide StartBit, BlocksPerBits, Relocate, Movable, Laid, IsListing, Names, Compact, Clear;
      ghost var was := View();
      MovedFiles(was, name, target, used);
      MovedLaid(was, name, target, used);
      Realocate(name, target, used);
      order := Compaction();
      ExtensionCheck(was, name, target, used, order, toAdd);
      r := ExtendAfter(name, toAdd);
    }

    method ExtendAfter(name: string, toAdd: nat) returns (r: int)
      requires Valid() && HasRoot(View(), name) && toAdd > 0
      modifies bitmap
      ensures Valid() && (View(), r) == Extended(old(View()), name, toAdd)
    {
      hide StartBit, BlocksPerBits;
      var f := files[name];
      var end := f.block + BlocksPerBits(f.size, blockSize);
      var available := NextBlocksAvailable(end, toAdd);
      if !available {
        return 0;
      }
      AssignBits(f.block, end + toAdd);
      return 1;
    }

    /**
     The size handed to the move in the compacting branch is the number of blocks, as in the original.
     A truncate that finds no run to move to reports success without having done anything.
     */
    method FsTruncate(name: string, newSize: nat) returns (r: int, order: seq<string>)
      requires Valid() && Allotted(View()) && newSize < UINT32
      requires name in files ==> Known(View(), name)
      requires Compacts(View(), name, newSize) ==> AllPlaced(Rooted(View(), name))
      modifies this, bitmap, blocks
      ensures Valid()
      ensures name !in old(files) ==> r == 0 && View() == old(View())
      ensures name in old(files) ==> Callable(old(View()), name, newSize, order)
      ensures Compacts(old(View()), name, newSize) ==>
                Names(AtTarget(old(View()), name), order) && HasRoot(Compact(AtTarget(old(View()), name), order), name)
      ensures (View(), r) == Truncated(old(View()), name, newSize, order)
      ensures r == (if old(Refuses(View(), name, newSize)) then 0 else 1)
    {
      hide StartBit, BlocksPerBits, Allotted, Relocate, Compact, IsListing, Movable, AllPlaced, Refuses;
      ghost var was := View();
      r, order := TruncateBranches(name, newSize);
      TruncateAnswersIff(was, name, newSize, order);
    }

    /** The file's blocks are not enough where it is. */
    method WithoutRoom(name: string, newSize: nat) returns (r: int, order: seq<string>)
      requires Valid() && Allotted(View()) && HasRoot(View(), name) && !FitsInPlace(View(), name, newSize)
      requires var t, used := Target(View(), name), Blocks(View(), files[name]);
               t >= 0 ==> Movable(View(), name, t, used)
      modifies this, bitmap, blocks
      ensures Valid()
      ensures old(Target(View(), name)) < 0 ==> r == 1 && View() == old(View())
      ensures var was := old(View());
              var t, used := Target(was, name), Blocks(was, was.files[name]);
              t >= 0 ==>
                && Shiftable(was, name, t, used, order) && Names(Moved(was, name, t, used), order)
                && HasRoot(Shifted(was, name, t, used, order), name)
                && (View(), r) == Extended(Shifted(was, name, t, used, order), name, ToAdd(was, name, newSize))
    {
      hide StartBit, BlocksPerBits, Allotted, Relocate, Compact, IsListing, Movable, FitsInPlace, Names, Extended;
      hide Shiftable;
      order := [];
      NoFitMeansMore(View(), name, newSize);
      OwnBlocksTaken(View(), name);
      var used, need := BlocksPerBits(files[name].size, blockSize), BlocksPerBits(newSize, blockSize);
      var newInitBlockTemp := CanRelocateAtTheEnd(name, used);
      if newInitBlockTemp < 0 {
        return 1, order;
      }
      r, order := CompactAndExtend(name, newInitBlockTemp, used, need - used);
    }

    /** The branches. */
    method TruncateBranches(name: string, newSize: nat) returns (r: int, order: seq<string>)
      requires Valid() && Allotted(View()) && newSize < UINT32
      requires name in files ==> Known(View(), name)
      requires Compacts(View(), name, newSize) ==> AllPlaced(Rooted(View(), name))
      modifies this, bitmap, blocks
      ensures Valid()
      ensures name !in old(files) ==> r == 0 && View() == old(View())
      ensures name in old(files) ==> Callable(old(View()), name, newSize, order)
      ensures Compacts(old(View()), name, newSize) ==>
                Names(AtTarget(old(View()), name), order) && HasRoot(Compact(AtTarget(old(View()), name), order), name)
      ensures (View(), r) == Truncated(old(View()), name, newSize, order)
    {
      hide StartBit, BlocksPerBits, Allotted, Relocate, Compact, IsListing, Movable, AllPlaced;
      order := [];
      if name !in files {
        return 0, order;
      }
      ghost var was := View();
      RootedPlaced(was, name);
      RootedKeeps(was, name);
      GiveFirstBlock(name, BlocksPerBits(newSize, blockSize));
      if files[name].block < 0 {
        return 0, order;
      }
      var f := files[name];
      var newBlocksNeeded, used := BlocksPerBits(newSize, blockSize), BlocksPerBits(f.size, blockSize);
      var fits := true;
      if used <= newBlocksNeeded {
        fits := NextBlocksAvailable(f.block + used, newBlocksNeeded - used);
      }
      if fits {
        ResizeInPlace(name, newSize);
        return 1, order;
      }
      if Compacts(was, name, newSize) {
        CompactingMovable(was, name, newSize);
      }
      r, order := WithoutRoom(name, newSize);
    }
  }

  predicate IsLeast(n: string, rest: set<string>, files: map<string, File>)
    requires rest <= files.Keys && n in files
  {
    forall m :: m in rest ==> files[n].block <= files[m].block
  }

  lemma {:induction false} SomeLeast(rest: set<string>, files: map<string, File>)
    requires rest <= files.Keys && rest != {}
    ensures exists n :: n in rest && IsLeast(n, rest, files)
    decreases rest
  {
    var n :| n in rest;
    if rest == {n} {
      assert IsLeast(n, rest, files);
    } else {
      SomeLeast(rest - {n}, files);
      var k :| k in rest - {n} && IsLeast(k, rest - {n}, files);
      var least := if files[k].block <= files[n].block then k else n;
      assert IsLeast(least, rest, files);
    }
  }

  lemma NoneCompacted(d: Disk, order: seq<string>)
    requires Names(d, order)
    ensures Compacted(d, order, 0) == d && Pos(d, order, 0) == 0
  {
  }

  lemma NthFile(d: Disk, order: seq<string>, i: nat)
    requires Names(d, order) && i < |order|
    ensures order[i] in d.files && Nth(d, order, i) == d.files[order[i]] && d.bs > 0
  {
  }

  lemma NothingRead(bits: seq<bool>, start: nat)
    requires start <= |bits|
    ensures NonZero(Decode(bits[start..start])) == []
  {
  }

  lemma ByteRead(bits: seq<bool>, start: nat, i: nat)
    requires start + 8 * (i + 1) <= |bits|
    ensures var b := Value(bits[start + 8 * i..start + 8 * i + 8]);
            b < 256 && NonZero(Decode(bits[start..start + 8 * (i + 1)]))
            == NonZero(Decode(bits[start..start + 8 * i])) + (if b != 0 then [b] else [])
  {
    hide NonZero, Decode, Value;
    var front, last := bits[start..start + 8 * i], bits[start + 8 * i..start + 8 * i + 8];
    ByteRange(last);
    assert bits[start..start + 8 * (i + 1)] == front + last;
    assert |front| == 8 * i;
    NextByte(bits[start..start + 8 * (i + 1)], front, last);
  }

  lemma NextByte(all: seq<bool>, front: seq<bool>, last: seq<bool>)
    requires all == front + last && |front| % 8 == 0 && |last| == 8
    ensures NonZero(Decode(all)) == NonZero(Decode(front)) + (if Value(last) != 0 then [Value(last)] else [])
  {
    OneByte(last);
    DecodeConcat(front, last);
    NonZeroConcat(Decode(front), Decode(last));
    assert Decode(last)[..0] == [];
  }

  lemma OverlayNext(was: seq<bool>, start: nat, data: seq<byte>, i: nat)
    requires i < |data| && start + 8 * |data| <= |was|
    ensures Overlay(Overlay(was, start, Encode(data[..i])), start + 8 * i, BitsOf(8, data[i]))
         == Overlay(was, start, Encode(data[..i + 1]))
  {
    assert data[..i + 1][..i] == data[..i];
  }
}
