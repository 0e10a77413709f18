/**
 What the disk is for: a map from names to bytes. Every step of a run is a step on that map, so a run of the file
 system is a run of the map.
 */
module DiskContents {
  import opened CTypes
  import opened BitStrings
  import opened DiskModel
  import opened Moves
  import opened Compaction
  import opened DiskOps
  import opened Truncate
  import opened Extension
  import opened TruncateContents
  import opened TruncateOutcome
  import opened DiskRuns

  /** The bytes recorded for a file; a file without blocks has none. */
  ghost function BytesOf(d: Disk, n: string): (bytes: seq<byte>)
    requires WellFormed(d) && n in d.files && (d.files[n].block >= 0 ==> Placed(d, d.files[n]))
  {
    if d.files[n].block >= 0 then Bytes(d, d.files[n]) else []
  }

  ghost function Contents(d: Disk): (m: map<string, seq<byte>>)
    requires Allotted(d)
  {
    map n | n in d.files :: BytesOf(d, n)
  }

  /** The text a read of a whole file gives is its bytes without the zeros. */
  lemma ReadIsContents(d: Disk, n: string)
    requires Allotted(d) && n in d.files && d.files[n].block >= 0 && d.files[n].size > 0
    ensures var f := d.files[n];
            StartBit(d.bs, f.block) + 8 * f.size <= |d.blocks|
            && ReadText(d.blocks, StartBit(d.bs, f.block), f.size - 1) == NonZero(Contents(d)[n])
  {
    hide StartBit, BlocksPerBits, NonZero, Decode;
    ContentInRange(d, d.files[n]);
  }

  // ----- the steps of the map -----

  /** Bits with others written over them; what would lie past the end is not written. */
  function Patched(bits: seq<bool>, at: nat, w: seq<bool>): (r: seq<bool>)
    ensures |r| == |bits|
    ensures forall i {:trigger r[i]} :: 0 <= i < |r| ==> r[i] == if at <= i < at + |w| then w[i - at] else bits[i]
  {
    seq(|bits|, i requires 0 <= i < |bits| => if at <= i < at + |w| then w[i - at] else bits[i])
  }

  /** One beginning of both, as long as the shorter. */
  ghost predicate Agree(a: seq<byte>, b: seq<byte>) {
    forall i :: 0 <= i < |a| && i < |b| ==> a[i] == b[i]
  }

  /** The same names, each with as many bytes. */
  ghost predicate SameSizes(m: map<string, seq<byte>>, r: map<string, seq<byte>>, but: set<string>) {
    r.Keys == m.Keys && forall n :: n in m && n !in but ==> |r[n]| == |m[n]|
  }

  /** The second name comes right after the first. */
  ghost predicate Follows(order: seq<string>, n: string, k: string) {
    exists i :: 0 < i < |order| && order[i - 1] == n && order[i] == k
  }

  /** Nothing of the file changes but its first byte. */
  ghost predicate FirstChanged(a: seq<byte>, b: seq<byte>) {
    |b| == |a| > 0 && b[1..] == a[1..]
  }

  /**
   A truncate through compaction: the names stay, and the sizes of the other files. The file itself has at most its
   former size, or one byte, and without zero bytes a beginning of its own. The others without zero bytes keep them,
   except that the one listed right after the file can have its first byte changed.
   */
  ghost predicate Squeezed(m: map<string, seq<byte>>, n: string, order: seq<string>, r: map<string, seq<byte>>) {
    && n in m && SameSizes(m, r, {n})
    && 1 <= |r[n]| && (|r[n]| <= |m[n]| || |r[n]| == 1)
    && (ZeroFree(m[n]) ==> Agree(m[n], r[n]))
    && forall k :: k in m && k != n && ZeroFree(m[k]) ==>
         r[k] == m[k] || (Follows(order, n, k) && ZeroFree(m[n]) && FirstChanged(m[k], r[k]))
  }

  /**
   Create adds an empty file, delete takes one away, a write replaces bits inside a file, a truncate without
   compaction keeps the beginning and fixes the length (or finds no room and does nothing), and a compaction keeps the
   files without a zero byte. What else a compaction keeps is known only from the disk.
   */
  ghost predicate MapStep(m: map<string, seq<byte>>, op: Op, r: map<string, seq<byte>>) {
    match op
    case CreateFile(n) => r == if n in m then m else m[n := []]
    case DeleteFile(n) => r == m - {n}
    case WriteFile(n, pointer, data) =>
      r == if n in m then m[n := Decode(Patched(Encode(m[n]), pointer, Encode(data)))] else m
    case TruncateFile(n, newSize) =>
      r == m || (n in m && n in r && r == m[n := r[n]] && |r[n]| == newSize && Agree(m[n], r[n]))
    case CompactingTruncate(n, _, order) => Squeezed(m, n, order, r)
    case CompactDisk(_) => SameSizes(m, r, {}) && forall n :: n in m && ZeroFree(m[n]) ==> r[n] == m[n]
  }

  // ----- each step of the disk is one -----

  lemma SameBytesOf(d: Disk, e: Disk, n: string)
    requires WellFormed(d) && WellFormed(e) && e.bs == d.bs && e.blocks == d.blocks && |e.bitmap| == |d.bitmap|
    requires n in d.files && n in e.files && e.files[n] == d.files[n]
    requires d.files[n].block >= 0 ==> Placed(d, d.files[n])
    ensures e.files[n].block >= 0 ==> Placed(e, e.files[n])
    ensures BytesOf(e, n) == BytesOf(d, n)
  {
  }

  lemma CreateStep(d: Disk, name: string)
    requires Allotted(d)
    ensures Allotted(Create(d, name))
    ensures MapStep(Contents(d), CreateFile(name), Contents(Create(d, name)))
  {
    hide Allotted, StartBit, BlocksPerBits, Bytes;
    CreateKeeps(d, name);
    forall n | n in d.files
      ensures n in Contents(Create(d, name)) && Contents(Create(d, name))[n] == Contents(d)[n]
    {
      PlacedOrEmpty(d, n);
      SameBytesOf(d, Create(d, name), n);
    }
  }

  lemma PlacedOrEmpty(d: Disk, n: string)
    requires Allotted(d) && n in d.files
    ensures WellFormed(d) && (d.files[n].block >= 0 ==> Placed(d, d.files[n]))
    ensures d.files[n].block < 0 ==> d.files[n] == EMPTY
  {
  }

  lemma DeleteStep(d: Disk, name: string)
    requires Allotted(d)
    ensures Allotted(Delete(d, name))
    ensures MapStep(Contents(d), DeleteFile(name), Contents(Delete(d, name)))
  {
    hide Allotted, StartBit, BlocksPerBits, Bytes;
    DeleteKeeps(d, name);
    AllottedWellFormed(d);
    AllottedWellFormed(Delete(d, name));
    forall n | n in d.files && n != name
      ensures n in Contents(Delete(d, name)) && Contents(Delete(d, name))[n] == Contents(d)[n]
    {
      PlacedOrEmpty(d, n);
      SameBytesOf(d, Delete(d, name), n);
    }
  }

  /** A write inside a file's blocks, on its recorded bits. */
  lemma WriteBits(d: Disk, name: string, pointer: nat, data: seq<byte>)
    requires HasRoot(d, name) && CanWrite(d, name, pointer, data)
    ensures Content(Write(d, name, pointer, data), d.files[name])
         == Patched(Content(d, d.files[name]), pointer, Encode(data))
  {
    hide StartBit, BlocksPerBits, Encode;
    ContentInRange(d, d.files[name]);
  }

  lemma WriteStep(d: Disk, name: string, pointer: nat, data: seq<byte>)
    requires Allotted(d) && Allowed(d, WriteFile(name, pointer, data))
    ensures Allotted(Write(d, name, pointer, data))
    ensures MapStep(Contents(d), WriteFile(name, pointer, data), Contents(Write(d, name, pointer, data)))
  {
    hide Allotted, StartBit, BlocksPerBits, Content, Decode, Encode, Write;
    WriteKeeps(d, name, pointer, data);
    if name !in d.files {
      NothingWritten(d, name, pointer, data);
      return;
    }
    WriteInRange(d, name, pointer, data);
    WriteBits(d, name, pointer, data);
    var e := Write(d, name, pointer, data);
    EightTimes(d.files[name].size);
    EncodeDecode(Content(d, d.files[name]));
    forall n | n in d.files
      ensures n in Contents(e)
      ensures Contents(e)[n] == if n == name then Decode(Patched(Encode(Contents(d)[n]), pointer, Encode(data)))
                                else Contents(d)[n]
    {
      PlacedOrEmpty(d, n);
      if n != name && d.files[n].block >= 0 {
        WriteLeavesOthers(d, name, pointer, data, n);
      }
    }
  }

  lemma NothingWritten(d: Disk, name: string, pointer: nat, data: seq<byte>)
    requires name !in d.files
    ensures Write(d, name, pointer, data) == d
  {
  }

  lemma WriteInRange(d: Disk, name: string, pointer: nat, data: seq<byte>)
    requires Allowed(d, WriteFile(name, pointer, data)) && name in d.files
    ensures CanWrite(d, name, pointer, data)
  {
    hide StartBit, BlocksPerBits;
    var f := d.files[name];
    ContentInRange(d, f);
    StartBitAdd(d.bs, f.block, Blocks(d, f));
  }

  lemma RootStep(d: Disk, name: string)
    requires Allotted(d) && name in d.files
    ensures Known(d, name) && Allotted(Rooted(d, name)) && Contents(Rooted(d, name)) == Contents(d)
  {
    hide Allotted, StartBit, BlocksPerBits, LowestFree, SetRange, Decode;
    RootedKeeps(d, name);
    RootedPlaced(d, name);
    var e := Rooted(d, name);
    forall n | n in d.files
      ensures Contents(e)[n] == Contents(d)[n]
    {
      PlacedOrEmpty(d, n);
      PlacedOrEmpty(e, n);
      if n == name && d.files[n].block < 0 {
        EmptyBytes(e, n);
      } else {
        SameBytesOf(d, e, n);
      }
    }
  }

  lemma EmptyBytes(d: Disk, n: string)
    requires WellFormed(d) && n in d.files && d.files[n].size == 0 && (d.files[n].block >= 0 ==> Placed(d, d.files[n]))
    ensures BytesOf(d, n) == []
  {
  }

  /** A truncate in place on the bytes. */
  lemma ResizeStep(e: Disk, name: string, newSize: nat)
    requires Allotted(e) && HasRoot(e, name) && FitsInPlace(e, name, newSize) && newSize < LIMIT
    ensures Allotted(Resized(e, name, newSize))
    ensures MapStep(Contents(e), TruncateFile(name, newSize), Contents(Resized(e, name, newSize)))
  {
    hide Allotted, StartBit, BlocksPerBits, Content, Decode, FitsInPlace, Resized;
    ResizedKeeps(e, name, newSize);
    var r := Resized(e, name, newSize);
    ResizedKeys(e, name, newSize);
    forall n | n in e.files && n != name
      ensures n in Contents(r) && Contents(r)[n] == Contents(e)[n]
    {
      PlacedOrEmpty(e, n);
      ResizedOther(e, name, newSize, n);
    }
    ResizedContent(e, name, newSize, name);
    var k := Min(newSize, e.files[name].size);
    EightTimes(newSize);
    EightTimes(e.files[name].size);
    PrefixBytes(Content(r, r.files[name]), k);
    PrefixBytes(Content(e, e.files[name]), k);
    var a, b := Contents(e)[name], Contents(r)[name];
    assert a[..k] == b[..k];
    assert Agree(a, b) by {
      forall i | 0 <= i < |a| && i < |b|
        ensures a[i] == b[i]
      {
        assert a[..k][i] == b[..k][i];
      }
    }
    assert Contents(r) == Contents(e)[name := Contents(r)[name]];
  }

  lemma ResizedKeys(e: Disk, name: string, newSize: nat)
    requires HasRoot(e, name) && FitsInPlace(e, name, newSize)
    ensures Resized(e, name, newSize).files.Keys == e.files.Keys
  {
    hide BlocksPerBits, SetRange;
  }

  lemma ResizedOther(e: Disk, name: string, newSize: nat, n: string)
    requires Allotted(e) && HasRoot(e, name) && FitsInPlace(e, name, newSize) && newSize < LIMIT
    requires n in e.files && n != name
    ensures WellFormed(Resized(e, name, newSize)) && n in Resized(e, name, newSize).files
    ensures var r := Resized(e, name, newSize); r.files[n].block >= 0 ==> Placed(r, r.files[n])
    ensures WellFormed(e) && (e.files[n].block >= 0 ==> Placed(e, e.files[n]))
    ensures BytesOf(Resized(e, name, newSize), n) == BytesOf(e, n)
  {
    hide Allotted, BlocksPerBits, SetRange, StartBit;
    PlacedOrEmpty(e, n);
    SameBytesOf(e, Resized(e, name, newSize), n);
  }

  lemma TruncateStep(d: Disk, name: string, newSize: nat)
    requires Allotted(d) && Allowed(d, TruncateFile(name, newSize))
    ensures Allotted(Apply(d, TruncateFile(name, newSize)))
    ensures MapStep(Contents(d), TruncateFile(name, newSize), Contents(Apply(d, TruncateFile(name, newSize))))
  {
    hide Allotted, StartBit, BlocksPerBits, Rooted, Resized, FitsInPlace, Contents, Target;
    AllottedWellFormed(d);
    if name in d.files {
      RootStep(d, name);
      RootedPlaced(d, name);
      HasName(d, name);
      var e := Rooted(d, name);
      if e.files[name].block >= 0 && FitsInPlace(e, name, newSize) {
        ResizeStep(e, name, newSize);
      }
    }
  }

  lemma HasName(d: Disk, name: string)
    requires Allotted(d) && name in d.files
    ensures name in Contents(d)
  {
  }

  lemma CompactStep(d: Disk, order: seq<string>)
    requires Allotted(d) && Allowed(d, CompactDisk(order))
    ensures Allotted(Compact(d, order))
    ensures MapStep(Contents(d), CompactDisk(order), Contents(Compact(d, order)))
  {
    hide Allotted, StartBit, BlocksPerBits, Content, Decode, Compact, Names;
    StepKeeps(d, CompactDisk(order));
    AllottedLaid(d);
    forall n | n in d.files
      ensures n in Contents(Compact(d, order)) && |Contents(Compact(d, order))[n]| == |Contents(d)[n]|
      ensures ZeroFree(Contents(d)[n]) ==> Contents(Compact(d, order))[n] == Contents(d)[n]
    {
      PlacedOrEmpty(d, n);
      var j :| 0 <= j < |order| && order[j] == n;
      CompactionPreserves(d, order, j);
    }
  }

  lemma CompactingStep(d: Disk, name: string, newSize: nat, order: seq<string>)
    requires Allotted(d) && Allowed(d, CompactingTruncate(name, newSize, order))
    ensures Allotted(Apply(d, CompactingTruncate(name, newSize, order)))
    ensures MapStep(Contents(d), CompactingTruncate(name, newSize, order),
                    Contents(Apply(d, CompactingTruncate(name, newSize, order))))
  {
    hide StartBit, BlocksPerBits, Allotted, Contents, Squeezed, Shifted, Target, SameOrphans;
    StepKeeps(d, CompactingTruncate(name, newSize, order));
    CompactingShift(d, name, newSize, order);
    RootStep(d, name);
    var e := Rooted(d, name);
    ShiftSqueezes(e, name, Target(e, name), order, Apply(d, CompactingTruncate(name, newSize, order)));
  }

  /** The disk after the branch, whatever blocks are marked on it. */
  lemma ShiftSqueezes(e: Disk, name: string, t: nat, order: seq<string>, r: Disk)
    requires Allotted(e) && HasRoot(e, name) && Shiftable(e, name, t, Blocks(e, e.files[name]), order)
    requires Names(Moved(e, name, t, Blocks(e, e.files[name])), order)
    requires Allotted(r)
    requires var g := Shifted(e, name, t, Blocks(e, e.files[name]), order);
             r.files == g.files && r.blocks == g.blocks && r.bs == g.bs && |r.bitmap| == |g.bitmap|
    ensures Squeezed(Contents(e), name, order, Contents(r))
  {
    hide StartBit, BlocksPerBits, Allotted, Relocate, Compact, Decode, Content, Names, Laid, IsListing, Spills;
    hide ZeroFree, Shifted, Follows, FirstChanged, Stray;
    var used, m := Blocks(e, e.files[name]), Moved(e, name, t, Blocks(e, e.files[name]));
    var g := Shifted(e, name, t, used, order);
    SameKeys(e, name, t, used, order);
    ShiftedOwn(e, name, t, used, order);
    SameBlocksSameContent(g, r, name);
    BlocksOrOne(e, name);
    forall k | k in e.files && k != name
      ensures HasRoot(e, k) && HasRoot(r, k)
      ensures |Contents(r)[k]| == |Contents(e)[k]|
      ensures ZeroFree(Contents(e)[k]) ==>
                || Contents(r)[k] == Contents(e)[k]
                || (Follows(order, name, k) && ZeroFree(Contents(e)[name])
                    && FirstChanged(Contents(e)[k], Contents(r)[k]))
    {
      ShiftedOther(e, name, t, used, order, k);
      SameBlocksSameContent(g, r, k);
      if Hit(e, name, t, k) {
        HitFollows(e, name, t, used, order, k);
        FirstPut(Bytes(e, e.files[k]), Stray(e, e.files[name]));
      }
    }
  }

  lemma SameKeys(e: Disk, name: string, t: nat, used: nat, order: seq<string>)
    requires Names(Moved(e, name, t, used), order)
    ensures Shifted(e, name, t, used, order).files.Keys == e.files.Keys
  {
    hide Relocate, Compact;
  }

  /** A file has at most as many blocks as bytes, or one. */
  lemma BlocksOrOne(e: Disk, name: string)
    requires HasRoot(e, name)
    ensures Blocks(e, e.files[name]) <= e.files[name].size || Blocks(e, e.files[name]) == 1
  {
    hide BlocksPerBits;
    if e.files[name].size > 0 {
      BlocksOfBlocks(e.bs, e.files[name].size);
    } else {
      OneBlockWhenEmpty(e.bs);
    }
  }

  lemma FirstPut(c: seq<byte>, b: byte)
    requires c != []
    ensures FirstChanged(c, c[0 := b])
  {
  }

  /** The file that is written over is listed right after the one that moved. */
  lemma HitFollows(e: Disk, name: string, t: nat, bytes: nat, order: seq<string>, k: string)
    requires Shiftable(e, name, t, bytes, order) && HasRoot(e, k) && Hit(e, name, t, k)
    ensures Follows(order, name, k) && ZeroFree(Bytes(e, e.files[name])) && Bytes(e, e.files[k]) != []
  {
    hide StartBit, BlocksPerBits, Relocate, Bytes, Stray;
    MovedFiles(e, name, t, bytes);
    MovedLaid(e, name, t, bytes);
    ShiftReady(e, name, t, bytes, order);
    var m := Moved(e, name, t, bytes);
    assert name in m.files && k in m.files;
    var i := PlaceOf(m, order, name);
    var j := PlaceOf(m, order, k);
    assert i < j;
    if i + 1 < j {
      var q := order[i + 1];
      OtherOutside(e, name, t, bytes, q);
      assert false;
    }
    assert 0 < j < |order| && order[j - 1] == name && order[j] == k;
  }

  /** Every step of the disk is a step of the map. */
  lemma StepRefines(d: Disk, op: Op)
    requires Allotted(d) && Allowed(d, op)
    ensures Allotted(Apply(d, op)) && MapStep(Contents(d), op, Contents(Apply(d, op)))
  {
    hide Allotted, MapStep, Contents, Create, Delete, Write, Compact, Truncated;
    match op
    case CreateFile(name) => CreateStep(d, name);
    case DeleteFile(name) => DeleteStep(d, name);
    case WriteFile(name, pointer, data) => WriteStep(d, name, pointer, data);
    case TruncateFile(name, newSize) => TruncateStep(d, name, newSize);
    case CompactingTruncate(name, newSize, order) => CompactingStep(d, name, newSize, order);
    case CompactDisk(order) => CompactStep(d, order);
  }

  // ----- runs -----

  ghost predicate MapRun(m: map<string, seq<byte>>, ops: seq<Op>, r: map<string, seq<byte>>)
    decreases |ops|
  {
    if |ops| == 0 then r == m else exists next :: MapStep(m, ops[0], next) && MapRun(next, ops[1..], r)
  }

  /** A run of the disk is a run of the map from names to bytes. */
  lemma {:induction false} RunRefines(d: Disk, ops: seq<Op>)
    requires Allotted(d) && AllowedRun(d, ops)
    ensures Allotted(Run(d, ops)) && MapRun(Contents(d), ops, Contents(Run(d, ops)))
    decreases |ops|
  {
    hide Allotted, Allowed, Apply, MapStep, Contents;
    if |ops| > 0 {
      StepRefines(d, ops[0]);
      RunRefines(Apply(d, ops[0]), ops[1..]);
      assert MapStep(Contents(d), ops[0], Contents(Apply(d, ops[0])));
    }
  }
}
