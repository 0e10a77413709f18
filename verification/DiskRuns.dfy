/**
 Runs of the file system: any sequence of creates, deletes, writes inside a file's own blocks, truncates with whatever
 outcome, and compactions. The allotment of blocks holds all along, the disk stays consistent as long as no truncate
 marks too much, and a file that no step touches keeps its bytes.
 */
module DiskRuns {
  import opened BitStrings
  import opened DiskModel
  import opened Moves
  import opened Compaction
  import opened DiskOps
  import opened Truncate
  import opened Extension
  import opened Packed
  import opened TruncateContents
  import opened TruncateOutcome

  datatype Op =
    | CreateFile(name: string)
    | DeleteFile(name: string)
    | WriteFile(name: string, pointer: nat, data: seq<byte>)
    | TruncateFile(name: string, newSize: nat)
    | CompactingTruncate(name: string, newSize: nat, order: seq<string>)
    | CompactDisk(order: seq<string>)

  /** The steps a run may take from a disk. */
  ghost predicate Allowed(d: Disk, op: Op) {
    match op
    case CreateFile(name) => true
    case DeleteFile(name) => true
    case WriteFile(name, pointer, data) =>
      name in d.files ==> HasRoot(d, name) && pointer + 8 * |data| <= StartBit(d.bs, Blocks(d, d.files[name]))
    case TruncateFile(name, newSize) =>
      newSize < LIMIT && (name in d.files ==> Known(d, name)) && !Compacts(d, name, newSize)
    case CompactingTruncate(name, newSize, order) =>
      newSize < LIMIT && Callable(d, name, newSize, order) && Compacts(d, name, newSize)
    case CompactDisk(order) => AllPlaced(d) && IsListing(d.files, order) && Names(d, order)
  }

  ghost function Apply(d: Disk, op: Op): (e: Disk)
    requires Allowed(d, op)
  {
    match op
    case CreateFile(name) => Create(d, name)
    case DeleteFile(name) => Delete(d, name)
    case WriteFile(name, pointer, data) => Write(d, name, pointer, data)
    case TruncateFile(name, newSize) => Truncated(d, name, newSize, []).0
    case CompactingTruncate(name, newSize, order) =>
      CompactingShiftable(d, name, newSize, order);
      Truncated(d, name, newSize, order).0
    case CompactDisk(order) => Compact(d, order)
  }

  ghost predicate AllowedRun(d: Disk, ops: seq<Op>)
    decreases |ops|
  {
    |ops| == 0 || (Allowed(d, ops[0]) && AllowedRun(Apply(d, ops[0]), ops[1..]))
  }

  ghost function Run(d: Disk, ops: seq<Op>): (e: Disk)
    requires AllowedRun(d, ops)
    decreases |ops|
  {
    if |ops| == 0 then d else Run(Apply(d, ops[0]), ops[1..])
  }

  lemma StepKeeps(d: Disk, op: Op)
    requires Allotted(d) && Allowed(d, op)
    ensures Allotted(Apply(d, op))
    ensures !op.CompactingTruncate? && !op.CompactDisk? ==> SameOrphans(d, Apply(d, op))
  {
    hide Allotted, StartBit, BlocksPerBits, Create, Delete, Write, Compact, Orphan;
    hide Truncated, Compacts, AtTarget, Callable, Names, IsListing;
    match op
    case CreateFile(name) => CreateKeeps(d, name);
    case DeleteFile(name) => DeleteKeeps(d, name);
    case WriteFile(name, pointer, data) => WriteKeeps(d, name, pointer, data);
    case TruncateFile(name, newSize) => PlainTruncateKeeps(d, name, newSize);
    case CompactingTruncate(name, newSize, order) =>
      CompactingShiftable(d, name, newSize, order);
      CompactingCallable(d, name, newSize, order);
      TruncateKeeps(d, name, newSize, order);
    case CompactDisk(order) => CompactionKeeps(d, order);
  }

  lemma PlainTruncateKeeps(d: Disk, name: string, newSize: nat)
    requires Allotted(d) && Allowed(d, TruncateFile(name, newSize))
    ensures Allotted(Apply(d, TruncateFile(name, newSize))) && SameOrphans(d, Apply(d, TruncateFile(name, newSize)))
  {
    hide Allotted, StartBit, BlocksPerBits, Orphan, Rooted, Resized, FitsInPlace, Target;
    AllottedWellFormed(d);
    if name in d.files {
      TruncateKeeps(d, name, newSize, []);
    }
  }

  lemma CompactingCallable(d: Disk, name: string, newSize: nat, order: seq<string>)
    requires Callable(d, name, newSize, order) && Compacts(d, name, newSize)
    ensures name in d.files && Known(d, name) && HasRoot(Rooted(d, name), name)
  {
    hide Allotted, BlocksPerBits, FitsInPlace, Target;
    RootedPlaced(d, name);
  }

  /** The allotment over all runs: each file owns one run of marked blocks, and runs are disjoint. */
  lemma {:induction false} RunKeeps(d: Disk, ops: seq<Op>)
    requires Allotted(d) && AllowedRun(d, ops)
    ensures Allotted(Run(d, ops))
    decreases |ops|
  {
    hide Allotted, Allowed, Apply, SameOrphans;
    if |ops| > 0 {
      StepKeeps(d, ops[0]);
      RunKeeps(Apply(d, ops[0]), ops[1..]);
    }
  }

  /** A newly formatted disk. */
  ghost predicate Formatted(d: Disk) {
    WellFormed(d) && d.files == map[] && forall x :: 0 <= x < |d.bitmap| ==> !d.bitmap[x]
  }

  lemma FormattedConsistent(d: Disk)
    requires Formatted(d)
    ensures Consistent(d)
  {
  }

  /** Every run from a formatted disk ends on an allotted one. */
  lemma KeptFromFormatted(d: Disk, ops: seq<Op>)
    requires Formatted(d) && AllowedRun(d, ops)
    ensures Allotted(Run(d, ops))
  {
    FormattedConsistent(d);
    RunKeeps(d, ops);
  }

  // ----- consistency -----

  /** A truncate through compaction that gives up; every other step is tidy. */
  ghost predicate Tidy(d: Disk, op: Op)
    requires Allowed(d, op)
  {
    op.CompactingTruncate? ==>
      (CompactingCallable(d, op.name, op.newSize, op.order); GivesUp(Rooted(d, op.name), op.name, op.newSize))
  }

  /** Exactly which steps keep a consistent disk consistent. */
  lemma StepConsistentIff(d: Disk, op: Op)
    requires Consistent(d) && Allowed(d, op)
    ensures Consistent(Apply(d, op)) <==> Tidy(d, op)
  {
    hide Allotted, StartBit, BlocksPerBits, Create, Delete, Write, Compact, Orphan;
    hide Truncated, Compacts, AtTarget, Callable, Names, IsListing, GivesUp;
    StepKeeps(d, op);
    match op
    case CompactingTruncate(name, newSize, order) =>
      CompactingShiftable(d, name, newSize, order);
      CompactingCallable(d, name, newSize, order);
      CompactingConsistentIff(d, name, newSize, order);
    case CompactDisk(order) => CompactionKeeps(d, order);
    case _ =>
  }

  ghost predicate TidyRun(d: Disk, ops: seq<Op>)
    requires AllowedRun(d, ops)
    decreases |ops|
  {
    |ops| == 0 || (Tidy(d, ops[0]) && TidyRun(Apply(d, ops[0]), ops[1..]))
  }

  /** Over all runs of such steps a block is marked exactly when a file owns it. */
  lemma {:induction false} RunConsistent(d: Disk, ops: seq<Op>)
    requires Consistent(d) && AllowedRun(d, ops) && TidyRun(d, ops)
    ensures Consistent(Run(d, ops))
    decreases |ops|
  {
    hide Consistent, Allowed, Apply, Tidy;
    if |ops| > 0 {
      StepConsistentIff(d, ops[0]);
      RunConsistent(Apply(d, ops[0]), ops[1..]);
    }
  }

  // ----- contents -----

  /** The step names the file, or moves another one that spills into it. */
  ghost predicate Touches(d: Disk, op: Op, n: string)
    requires Allowed(d, op)
  {
    match op
    case CreateFile(name) => name == n
    case DeleteFile(name) => name == n
    case WriteFile(name, _, _) => name == n
    case TruncateFile(name, _) => name == n
    case CompactingTruncate(name, newSize, order) =>
      name == n || (CompactingCallable(d, name, newSize, order); HitByTruncate(Rooted(d, name), name, n))
    case CompactDisk(_) => false
  }

  /** The compacting branch moves the file to a run that ends where the other begins, and writes over its first byte. */
  ghost predicate HitByTruncate(e: Disk, name: string, n: string)
    requires HasRoot(e, name)
  {
    Target(e, name) >= 0 && HasRoot(e, n) && Hit(e, name, Target(e, name), n)
  }

  /** A file with blocks whose recorded bytes are `bytes`, none of them zero. */
  ghost predicate Holds(d: Disk, n: string, bytes: seq<byte>) {
    HasRoot(d, n) && Bytes(d, d.files[n]) == bytes && ZeroFree(bytes)
  }

  lemma WriteLeavesOthers(d: Disk, name: string, pointer: nat, data: seq<byte>, n: string)
    requires Allotted(d) && Allowed(d, WriteFile(name, pointer, data))
    requires HasRoot(d, n) && n != name
    ensures Content(Write(d, name, pointer, data), d.files[n]) == Content(d, d.files[n])
  {
    hide StartBit, BlocksPerBits;
    if name in d.files {
      var f, g := d.files[name], d.files[n];
      assert Separate(d, f, g);
      ContentInRange(d, f);
      ContentInRange(d, g);
      StartBitAdd(d.bs, f.block, Blocks(d, f));
      if f.block < g.block {
        StartBitMonotone(d.bs, f.block + Blocks(d, f), g.block);
      } else {
        StartBitMonotone(d.bs, g.block + Blocks(d, g), f.block);
      }
      OverlayFrame(d.blocks, StartBit(d.bs, f.block) + pointer, Encode(data),
                   StartBit(d.bs, g.block), StartBit(d.bs, g.block) + 8 * g.size);
    }
  }

  /** What a write does to the bytes of its own file. */
  lemma WriteContent(d: Disk, name: string, pointer: nat, data: seq<byte>)
    requires HasRoot(d, name) && CanWrite(d, name, pointer, data)
    requires pointer + 8 * |data| <= 8 * d.files[name].size
    ensures Content(Write(d, name, pointer, data), d.files[name])
         == Overlay(Content(d, d.files[name]), pointer, Encode(data))
  {
    hide StartBit, BlocksPerBits, Encode, Overlay;
    var f := d.files[name];
    ContentInRange(d, f);
    OverlayPart(d.blocks, StartBit(d.bs, f.block), 8 * f.size, pointer, Encode(data));
  }

  lemma CompactLeavesAll(d: Disk, order: seq<string>, n: string, bytes: seq<byte>)
    requires Allotted(d) && AllPlaced(d) && IsListing(d.files, order) && Names(d, order)
    requires Holds(d, n, bytes)
    ensures Holds(Compact(d, order), n, bytes)
  {
    hide Compact, StartBit, BlocksPerBits, Content;
    AllottedLaid(d);
    var j := PlaceOf(d, order, n);
    CompactionPreserves(d, order, j);
  }

  /** The disk after the compacting branch has the files and the bytes of the one just after the compaction. */
  lemma CompactingShift(d: Disk, name: string, newSize: nat, order: seq<string>)
    requires Callable(d, name, newSize, order) && Compacts(d, name, newSize)
    ensures Names(AtTarget(d, name), order) && HasRoot(Compact(AtTarget(d, name), order), name)
    ensures var e := Rooted(d, name);
            && name in d.files && Known(d, name) && HasRoot(e, name) && Target(e, name) >= 0
            && Shiftable(e, name, Target(e, name), Blocks(e, e.files[name]), order)
            && Names(Moved(e, name, Target(e, name), Blocks(e, e.files[name])), order)
            && var g := Shifted(e, name, Target(e, name), Blocks(e, e.files[name]), order);
               var r := Truncated(d, name, newSize, order).0;
               && r.files == g.files && r.blocks == g.blocks && r.bs == g.bs && |r.bitmap| == |g.bitmap|
  {
    hide StartBit, BlocksPerBits, Relocate, Compact, Names, IsListing, Allotted, Movable, FitsInPlace, Available;
    CompactingShiftable(d, name, newSize, order);
    CompactingCallable(d, name, newSize, order);
  }

  lemma CompactingLeavesOthers(d: Disk, name: string, newSize: nat, order: seq<string>, n: string, bytes: seq<byte>)
    requires Allotted(d) && Allowed(d, CompactingTruncate(name, newSize, order)) && Holds(d, n, bytes)
    requires !Touches(d, CompactingTruncate(name, newSize, order), n)
    ensures Holds(Apply(d, CompactingTruncate(name, newSize, order)), n, bytes)
  {
    hide StartBit, BlocksPerBits, Compact, Allotted, Relocate, Content, Decode, Movable, IsListing, Names, Truncated;
    hide Shifted, Hit, Target;
    CompactingShift(d, name, newSize, order);
    var e := Rooted(d, name);
    var t, used := Target(e, name), Blocks(e, e.files[name]);
    SameBlocksSameContent(d, e, n);
    ShiftedOther(e, name, t, used, order, n);
    SameBlocksSameContent(Shifted(e, name, t, used, order), Truncated(d, name, newSize, order).0, n);
  }

  lemma StepLeavesOthers(d: Disk, op: Op, n: string, bytes: seq<byte>)
    requires Allotted(d) && Allowed(d, op) && Holds(d, n, bytes) && !Touches(d, op, n)
    ensures Holds(Apply(d, op), n, bytes)
  {
    hide StartBit, BlocksPerBits, Compact, Write, Content, Allotted, LowestFree, SetRange;
    hide Truncated, Compacts, AtTarget, Callable, Names, IsListing, PackedEnd;
    match op
    case CreateFile(name) => SameBlocksSameContent(d, Create(d, name), n);
    case DeleteFile(name) => SameBlocksSameContent(d, Delete(d, name), n);
    case WriteFile(name, pointer, data) =>
      WriteLeavesOthers(d, name, pointer, data, n);
    case TruncateFile(name, newSize) => PlainLeavesOthers(d, name, newSize, n);
    case CompactingTruncate(name, newSize, order) => CompactingLeavesOthers(d, name, newSize, order, n, bytes);
    case CompactDisk(order) => CompactLeavesAll(d, order, n, bytes);
  }

  lemma PlainLeavesOthers(d: Disk, name: string, newSize: nat, n: string)
    requires Allotted(d) && Allowed(d, TruncateFile(name, newSize)) && HasRoot(d, n) && n != name
    ensures var e := Apply(d, TruncateFile(name, newSize));
            HasRoot(e, n) && e.files[n] == d.files[n] && Content(e, e.files[n]) == Content(d, d.files[n])
  {
    hide StartBit, BlocksPerBits, Content, LowestFree, SetRange, FitsInPlace, Target;
    StepKeeps(d, TruncateFile(name, newSize));
    if name in d.files {
      RootedPlaced(d, name);
    }
    SameBlocksSameContent(d, Apply(d, TruncateFile(name, newSize)), n);
  }

  lemma SameBlocksSameContent(d: Disk, e: Disk, n: string)
    requires HasRoot(d, n) && WellFormed(e) && e.bs == d.bs && e.blocks == d.blocks && |e.bitmap| == |d.bitmap|
    requires n in e.files && e.files[n] == d.files[n]
    ensures HasRoot(e, n) && Content(e, e.files[n]) == Content(d, d.files[n])
  {
  }

  ghost predicate Untouched(d: Disk, ops: seq<Op>, n: string)
    requires AllowedRun(d, ops)
    decreases |ops|
  {
    |ops| == 0 || (!Touches(d, ops[0], n) && Untouched(Apply(d, ops[0]), ops[1..], n))
  }

  /** Over any run, a file that no step touches keeps its bytes, however often the disk is compacted. */
  lemma {:induction false} UntouchedFileSurvives(d: Disk, ops: seq<Op>, n: string, bytes: seq<byte>)
    requires Allotted(d) && AllowedRun(d, ops) && Holds(d, n, bytes) && Untouched(d, ops, n)
    ensures Holds(Run(d, ops), n, bytes)
    decreases |ops|
  {
    hide Allotted, Allowed, Apply, Holds, Touches, SameOrphans;
    if |ops| > 0 {
      StepKeeps(d, ops[0]);
      StepLeavesOthers(d, ops[0], n, bytes);
      UntouchedFileSurvives(Apply(d, ops[0]), ops[1..], n, bytes);
    }
  }

  // ----- the small disk is reached -----

  /** A fresh file truncated where the lowest free block starts a long enough run. */
  lemma FirstTruncate(d: Disk, name: string, newSize: nat, b: nat)
    requires Known(d, name) && d.files[name] == EMPTY && LowestFree(d.bitmap, 0) == b && newSize < LIMIT
    requires FreeRun(d.bitmap, b, BlocksPerBits(newSize, d.bs))
    ensures Allowed(d, TruncateFile(name, newSize))
    ensures Apply(d, TruncateFile(name, newSize))
         == d.(bitmap := SetRange(d.bitmap, b, b + BlocksPerBits(newSize, d.bs), true),
               files := d.files[name := File(b, newSize)])
  {
    hide StartBit, LowestFree, Placed, BlocksPerBits, FitsInPlace, Target;
    RootedPlaced(d, name);
    FreshFitsIff(d, name, newSize);
    OneBlockWhenEmpty(d.bs);
    var need := BlocksPerBits(newSize, d.bs);
    assert SetRange(SetRange(d.bitmap, b, b + 1, true), b + 1, b + need, true) == SetRange(d.bitmap, b, b + need, true);
    assert d.files[name := File(b, 0)][name := File(b, newSize)] == d.files[name := File(b, newSize)];
  }

  /** Eight two-byte blocks, none of them taken. */
  function SmallFormatted(): (d: Disk) {
    Disk(2, seq(8, i => false), seq(136, i => false), map[])
  }

  lemma SmallSteps()
    ensures var d := SmallFormatted();
            var a := d.(files := map["A" := EMPTY]);
            var b := SmallDisk().(bitmap := SetRange(d.bitmap, 0, 2, true), files := map["A" := File(0, 3)]);
            var c := b.(files := map["A" := File(0, 3), "B" := EMPTY]);
            && Formatted(d) && Apply(d, CreateFile("A")) == a
            && Allowed(a, TruncateFile("A", 3)) && Apply(a, TruncateFile("A", 3)) == b
            && Apply(b, CreateFile("B")) == c
            && Allowed(c, TruncateFile("B", 2)) && Apply(c, TruncateFile("B", 2)) == SmallDisk()
  {
    hide Truncated, Compacts, Known;
    var d := SmallFormatted();
    var a := d.(files := map["A" := EMPTY]);
    var b := SmallDisk().(bitmap := SetRange(d.bitmap, 0, 2, true), files := map["A" := File(0, 3)]);
    var c := b.(files := map["A" := File(0, 3), "B" := EMPTY]);
    assert StartBit(2, 8) == 128;
    assert BlocksPerBits(3, 2) == 2 && BlocksPerBits(2, 2) == 1;
    SmallKnown(a, "A");
    SmallKnown(c, "B");
    FirstTruncate(a, "A", 3, 0);
    assert c.bitmap[0] && c.bitmap[1] && !c.bitmap[2] && LowestFree(c.bitmap, 0) == 2;
    FirstTruncate(c, "B", 2, 2);
    assert SetRange(c.bitmap, 2, 3, true) == SmallDisk().bitmap;
  }

  lemma SmallKnown(d: Disk, name: string)
    requires WellFormed(d) && name in d.files && d.files[name] == EMPTY
    ensures Known(d, name)
  {
  }

  /** The disk on which a truncate loses a byte is reached from a formatted one. */
  lemma SmallDiskReached()
    ensures var d := SmallFormatted();
            var ops := [CreateFile("A"), TruncateFile("A", 3), CreateFile("B"), TruncateFile("B", 2)];
            Formatted(d) && AllowedRun(d, ops) && Run(d, ops) == SmallDisk()
  {
    hide Apply, Allowed;
    SmallSteps();
    CreateAllowed();
    var d := SmallFormatted();
    var a := Apply(d, CreateFile("A"));
    var b := Apply(a, TruncateFile("A", 3));
    var c := Apply(b, CreateFile("B"));
    OneStep(c, TruncateFile("B", 2), []);
    OneStep(b, CreateFile("B"), [TruncateFile("B", 2)]);
    OneStep(a, TruncateFile("A", 3), [CreateFile("B"), TruncateFile("B", 2)]);
    OneStep(d, CreateFile("A"), [TruncateFile("A", 3), CreateFile("B"), TruncateFile("B", 2)]);
    assert [TruncateFile("B", 2)] + [] == [TruncateFile("B", 2)];
  }

  lemma CreateAllowed()
    ensures forall d, n :: Allowed(d, CreateFile(n))
  {
  }

  lemma OneStep(d: Disk, op: Op, rest: seq<Op>)
    requires Allowed(d, op) && AllowedRun(Apply(d, op), rest)
    ensures AllowedRun(d, [op] + rest) && Run(d, [op] + rest) == Run(Apply(d, op), rest)
  {
    assert ([op] + rest)[1..] == rest;
  }
}
