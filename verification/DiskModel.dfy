/**
 The disk of a DialFS interface as a value: the block bitmap, the block contents as bits, and one
 record per file. Every operation of the file system is given here as a function from disk to disk;
 the class DialFs.Device carries the operations out in place and is proved against these functions.
 */
module DiskModel {
  import opened CTypes
  import opened BitStrings

  /** A metadata record: BLOQUE_INICIAL (-1 until the first truncate) and TAMANIO_ARCHIVO in bytes. */
  datatype File = File(block: int, size: nat)

  datatype Disk = Disk(bs: nat, bitmap: seq<bool>, blocks: seq<bool>, files: map<string, File>)

  const LIMIT := 1_000_000_000

  /** Blocks that `bytes` bytes need, at least one, computed in 32-bit unsigned arithmetic. */
  function BlocksPerBits(bytes: nat, bs: nat): (k: nat)
    requires bs > 0
    ensures k >= 1
  {
    var q := (bytes + bs - 1) % UINT32 / bs;
    if q == 0 then 1 else q
  }

  /** What a metadata field holds after `v` is saved through a ten-byte text buffer: at most nine digits. */
  function Stored(v: nat): (r: nat)
  {
    if v < LIMIT then v else v / 10
  }

  /** First bit of block `block` in the bit array of contents. */
  function StartBit(bs: nat, block: nat): nat {
    8 * bs * block
  }

  lemma StartBitMonotone(bs: nat, a: nat, b: nat)
    requires a <= b
    ensures StartBit(bs, a) <= StartBit(bs, b)
    ensures a < b ==> StartBit(bs, a) + 8 * bs <= StartBit(bs, b)
    ensures StartBit(bs, a) % 8 == 0
  {
    MulMonotone(8 * bs, a, b);
    if a < b {
      MulMonotone(8 * bs, a + 1, b);
    }
    assert 8 * bs * a == 8 * (bs * a);
  }

  lemma StartBitAdd(bs: nat, a: nat, b: nat)
    ensures StartBit(bs, a + b) == StartBit(bs, a) + StartBit(bs, b)
  {
  }

  lemma CeilingBounds(bytes: nat, bs: nat)
    requires bs > 0
    ensures var q := (bytes + bs - 1) / bs; bs * q >= bytes && (q > 0 ==> bs * (q - 1) < bytes)
  {
    var q := (bytes + bs - 1) / bs;
    assert bytes + bs - 1 == bs * q + (bytes + bs - 1) % bs;
    assert q > 0 ==> bs * (q - 1) == bs * q - bs;
  }

  /** Below the limit there is no wrap: the blocks hold the bytes and one block fewer would not. */
  lemma BlocksHoldBytes(bytes: nat, bs: nat)
    requires 0 < bs <= LIMIT && bytes < LIMIT
    ensures 8 * bytes <= StartBit(bs, BlocksPerBits(bytes, bs))
    ensures BlocksPerBits(bytes, bs) > 1 ==> StartBit(bs, BlocksPerBits(bytes, bs) - 1) < 8 * bytes
  {
    CeilingBounds(bytes, bs);
    assert (bytes + bs - 1) % UINT32 == bytes + bs - 1;
    var q := (bytes + bs - 1) / bs;
    if q == 0 {
      assert bytes == 0;
    } else {
      assert StartBit(bs, q) == 8 * (bs * q);
      assert StartBit(bs, q - 1) == 8 * (bs * (q - 1));
    }
  }

  /** The wrap of the block count: exactly when it makes a file's blocks too few for its bytes. */
  lemma BlocksCoverIff(bytes: nat, bs: nat)
    requires 0 < bs < UINT32 && bytes < UINT32
    ensures bytes <= bs * BlocksPerBits(bytes, bs) <==> bytes + bs - 1 < UINT32 || bytes <= bs
  {
    if bytes + bs - 1 < UINT32 {
      CeilingBounds(bytes, bs);
    } else {
      assert (bytes + bs - 1) % UINT32 == bytes + bs - 1 - UINT32;
    }
  }

  function Blocks(d: Disk, f: File): (k: nat)
    requires d.bs > 0
    ensures k >= 1
  {
    BlocksPerBits(f.size, d.bs)
  }

  // ----- the bitmap -----

  predicate FreeRun(bitmap: seq<bool>, s: int, k: nat) {
    0 <= s && s + k <= |bitmap| && forall i :: s <= i < s + k ==> !bitmap[i]
  }

  function SetRange(bitmap: seq<bool>, lo: nat, hi: nat, v: bool): (r: seq<bool>)
    requires lo <= hi <= |bitmap|
    ensures |r| == |bitmap|
    ensures forall i {:trigger r[i]} :: 0 <= i < |r| ==> r[i] == if lo <= i < hi then v else bitmap[i]
  {
    seq(|bitmap|, i requires 0 <= i < |bitmap| => if lo <= i < hi then v else bitmap[i])
  }

  /** The start of the highest run of `k` free blocks that ends at or below block `hi`, or -1. */
  function HighestRun(bitmap: seq<bool>, k: nat, hi: nat): (s: int)
    requires hi <= |bitmap|
    ensures s == -1 || (FreeRun(bitmap, s, k) && s + k <= hi)
    ensures forall t :: FreeRun(bitmap, t, k) && t + k <= hi ==> t <= s
    decreases hi
  {
    if hi < k then -1
    else if FreeRun(bitmap, hi - k, k) then hi - k
    else if hi == 0 then -1
    else HighestRun(bitmap, k, hi - 1)
  }

  /** The lowest free block at or above `from`, or -1. */
  function LowestFree(bitmap: seq<bool>, from: nat): (s: int)
    requires from <= |bitmap|
    ensures s == -1 || (from <= s < |bitmap| && !bitmap[s])
    ensures forall t :: from <= t < |bitmap| && !bitmap[t] ==> 0 <= s <= t
    decreases |bitmap| - from
  {
    if from == |bitmap| then -1
    else if !bitmap[from] then from
    else LowestFree(bitmap, from + 1)
  }

  function FreeCount(bitmap: seq<bool>): (n: nat)
    ensures n <= |bitmap|
  {
    if |bitmap| == 0 then 0
    else FreeCount(bitmap[..|bitmap| - 1]) + (if bitmap[|bitmap| - 1] then 0 else 1)
  }

  // ----- well-formed disks -----

  /**
   The bit array holds the blocks and at least one byte more: the array is a memory-mapped file, and
   the rest of its last page is readable. The operations read and write that byte. Bit positions are
   signed 32-bit numbers.
   */
  predicate WellFormed(d: Disk) {
    && 0 < d.bs <= LIMIT
    && |d.bitmap| < LIMIT
    && StartBit(d.bs, |d.bitmap|) + 8 <= |d.blocks| <= 0x8000_0000
  }

  predicate Placed(d: Disk, f: File)
    requires d.bs > 0
  {
    0 <= f.block && f.size < LIMIT && f.block + Blocks(d, f) <= |d.bitmap|
  }

  predicate Inside(d: Disk, f: File, x: int)
    requires d.bs > 0
  {
    0 <= f.block <= x < f.block + Blocks(d, f)
  }

  ghost predicate Owned(d: Disk, x: int)
    requires d.bs > 0
  {
    exists n :: n in d.files && Inside(d, d.files[n], x)
  }

  predicate Apart(d: Disk, f: File, g: File)
    requires d.bs > 0
  {
    f.block + Blocks(d, f) <= g.block || g.block + Blocks(d, g) <= f.block
  }

  /** Every file owns a run in range, runs are disjoint, and the bit of every owned block is set. */
  ghost predicate Laid(d: Disk) {
    && WellFormed(d)
    && (forall n :: n in d.files ==> Placed(d, d.files[n]))
    && (forall n, m :: n in d.files && m in d.files && n != m ==> Apart(d, d.files[n], d.files[m]))
    && (forall n, x :: n in d.files && Inside(d, d.files[n], x) ==> d.bitmap[x])
  }

  /** The bits of the recorded bytes of a file. */
  function Content(d: Disk, f: File): (c: seq<bool>)
    requires WellFormed(d) && Placed(d, f)
    ensures |c| == 8 * f.size
  {
    ContentInRange(d, f);
    d.blocks[StartBit(d.bs, f.block)..StartBit(d.bs, f.block) + 8 * f.size]
  }

  lemma ContentInRange(d: Disk, f: File)
    requires WellFormed(d) && Placed(d, f)
    ensures StartBit(d.bs, f.block) + 8 * f.size <= StartBit(d.bs, f.block + Blocks(d, f))
    ensures StartBit(d.bs, f.block + Blocks(d, f)) + 8 <= |d.blocks|
  {
    BlocksHoldBytes(f.size, d.bs);
    StartBitAdd(d.bs, f.block, Blocks(d, f));
    StartBitMonotone(d.bs, f.block + Blocks(d, f), |d.bitmap|);
  }

  // ----- moving a file -----

  /** The text `fsRead` returns for `n` requested bytes from bit `at`: one byte more, zeros dropped. */
  function ReadText(blocks: seq<bool>, at: nat, n: nat): (r: seq<byte>)
    requires at + 8 * (n + 1) <= |blocks|
    ensures |r| <= n + 1
  {
    NonZero(Decode(blocks[at..at + 8 * (n + 1)]))
  }

  predicate CanMove(d: Disk, name: string, newBlock: nat, newSize: nat) {
    && WellFormed(d)
    && name in d.files
    && Placed(d, d.files[name])
    && newBlock + Blocks(d, d.files[name]) <= |d.bitmap|
    && newBlock + BlocksPerBits(newSize, d.bs) <= |d.bitmap|
  }

  lemma MoveInRange(d: Disk, name: string, newBlock: nat, newSize: nat)
    requires CanMove(d, name, newBlock, newSize)
    ensures var f := d.files[name];
            StartBit(d.bs, f.block) + 8 * (f.size + 1) <= |d.blocks|
            && StartBit(d.bs, newBlock) + 8 * (f.size + 1) <= StartBit(d.bs, newBlock + Blocks(d, f)) + 8 <= |d.blocks|
  {
    var f := d.files[name];
    ContentInRange(d, f);
    ContentInRange(d, File(newBlock, f.size));
  }

  /**
   A file moved to `newBlock` with record size `newSize`: its text is read first, its old blocks are
   freed (none when it starts at block 0, where the loop bound wraps), the new ones are taken, and the
   text is written. Nothing happens where the operation is undefined.
   */
  function Relocate(d: Disk, name: string, newBlock: nat, newSize: nat): (r: Disk)
    ensures r.bs == d.bs && |r.bitmap| == |d.bitmap| && |r.blocks| == |d.blocks| && r.files.Keys == d.files.Keys
  {
    if !CanMove(d, name, newBlock, newSize) then d
    else
      MoveInRange(d, name, newBlock, newSize);
      var f := d.files[name];
      var text := ReadText(d.blocks, StartBit(d.bs, f.block), f.size);
      var freed := if f.block == 0 then d.bitmap
                   else SetRange(d.bitmap, f.block, f.block + Blocks(d, f), false);
      d.(bitmap := SetRange(freed, newBlock, newBlock + BlocksPerBits(newSize, d.bs), true),
         blocks := Overlay(d.blocks, StartBit(d.bs, newBlock), Encode(text)),
         files := d.files[name := File(Stored(newBlock), Stored(newSize))])
  }

  // ----- compaction -----

  /** A directory listing sorted by first block. */
  ghost predicate IsListing(files: map<string, File>, order: seq<string>) {
    && (forall i :: 0 <= i < |order| ==> order[i] in files)
    && (forall n :: n in files ==> n in order)
    && (forall i, j :: 0 <= i < j < |order| ==> order[i] != order[j])
    && (forall i, j :: 0 <= i < j < |order| ==> files[order[i]].block <= files[order[j]].block)
  }

  ghost predicate Names(d: Disk, order: seq<string>) {
    d.bs > 0 && forall i :: 0 <= i < |order| ==> order[i] in d.files
  }

  /** The file at place `i` of the listing. */
  function Nth(d: Disk, order: seq<string>, i: nat): (f: File)
    requires Names(d, order) && i < |order|
  {
    d.files[order[i]]
  }

  /** Blocks taken by the first `i` files of the listing. */
  function Pos(d: Disk, order: seq<string>, i: nat): (p: nat)
    requires Names(d, order) && i <= |order|
    decreases i
  {
    if i == 0 then 0 else Pos(d, order, i - 1) + Blocks(d, Nth(d, order, i - 1))
  }

  /** One iteration of compaction: a file, as listed, is moved to `p` unless it is there already. */
  function Slide(d: Disk, name: string, f: File, p: nat): (r: Disk)
    ensures r.bs == d.bs && |r.bitmap| == |d.bitmap| && |r.blocks| == |d.blocks| && r.files.Keys == d.files.Keys
  {
    if f.block != p then Relocate(d, name, p, f.size) else d
  }

  /** The disk after the first `i` files of the listing have been slid down. */
  function Compacted(d: Disk, order: seq<string>, i: nat): (r: Disk)
    requires Names(d, order) && i <= |order|
    ensures r.bs == d.bs && |r.bitmap| == |d.bitmap| && |r.blocks| == |d.blocks| && r.files.Keys == d.files.Keys
    decreases i
  {
    if i == 0 then d
    else
      var prev := Compacted(d, order, i - 1);
      Slide(prev, order[i - 1], Nth(d, order, i - 1), Pos(d, order, i - 1))
  }
}
