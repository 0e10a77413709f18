/**
 What the compacting branch of truncate does to the bytes of files: the moved file, whatever size it is recorded
 with, and the others, of which the move can write over one byte.
 */
module TruncateContents {
  import opened BitStrings
  import opened DiskModel
  import opened Moves
  import opened Compaction
  import opened Truncate
  import opened Extension

  /** The move writes over the first byte of this file: it begins where the target run ends, and the moved file spills. */
  ghost predicate Hit(e: Disk, name: string, t: nat, n: string)
    requires HasRoot(e, name) && HasRoot(e, n)
  {
    && n != name && e.files[n].size > 0 && e.files[n].block == t + Blocks(e, e.files[name])
    && Spills(e, e.files[name])
  }

  /** The bytes of another file after the move. */
  ghost function AfterMove(e: Disk, name: string, t: nat, n: string): (c: seq<byte>)
    requires HasRoot(e, name) && HasRoot(e, n)
    ensures |c| == e.files[n].size
  {
    var c := Bytes(e, e.files[n]);
    if Hit(e, name, t, n) then c[0 := Stray(e, e.files[name])] else c
  }

  lemma OtherOutside(e: Disk, name: string, t: nat, bytes: nat, n: string)
    requires Movable(e, name, t, bytes) && n in e.files && n != name
    ensures HasRoot(e, n)
    ensures e.files[n].block + Blocks(e, e.files[n]) <= t || t + Blocks(e, e.files[name]) <= e.files[n].block
  {
    hide StartBit, BlocksPerBits;
    var f := e.files[n];
    var x := if f.block < t then t else f.block;
    assert Inside(e, f, x) ==> e.bitmap[x];
  }

  /** The bytes of the other files once the file has been moved. */
  lemma MovedOther(e: Disk, name: string, t: nat, bytes: nat, n: string)
    requires Movable(e, name, t, bytes) && n in e.files && n != name
    ensures var m := Moved(e, name, t, bytes);
            && HasRoot(e, n) && HasRoot(m, n) && m.files[n] == e.files[n]
            && Bytes(m, m.files[n]) == AfterMove(e, name, t, n)
  {
    hide StartBit, BlocksPerBits, Relocate, Laid, Spills, Decode;
    OtherOutside(e, name, t, bytes, n);
    MovedFiles(e, name, t, bytes);
    var f := e.files[n];
    ContentInRange(e, f);
    if f.block + Blocks(e, f) <= t {
      StartBitMonotone(e.bs, f.block + Blocks(e, f), t);
      MoveFrame(e, name, t, bytes, StartBit(e.bs, f.block), StartBit(e.bs, f.block) + 8 * f.size);
    } else if f.size > 0 {
      MovedAbove(e, name, t, bytes, n);
    }
  }

  lemma MovedAbove(e: Disk, name: string, t: nat, bytes: nat, n: string)
    requires Movable(e, name, t, bytes) && n != name && HasRoot(e, n) && e.files[n].size > 0
    requires t + Blocks(e, e.files[name]) <= e.files[n].block
    ensures var m := Moved(e, name, t, bytes);
            HasRoot(m, n) && Bytes(m, e.files[n]) == AfterMove(e, name, t, n)
  {
    hide StartBit, BlocksPerBits, Relocate, Laid, Decode, Bytes, Stray, Value;
    MovedFiles(e, name, t, bytes);
    var f, own, m := e.files[n], e.files[name], Moved(e, name, t, bytes);
    var at, end := StartBit(e.bs, f.block), t + Blocks(e, own);
    ContentInRange(e, own);
    StartBitAdd(e.bs, own.block, Blocks(e, own));
    StartBitAdd(e.bs, t, Blocks(e, own));
    StartBitMonotone(e.bs, end, f.block);
    StartBitMonotone(e.bs, f.block, f.block);
    FirstApart(e, f);
    FirstApart(m, f);
    ByteAfterMove(e, name, t, bytes, at);
    MoveFrame(e, name, t, bytes, at + 8, at + 8 * f.size);
  }

  // ----- through the compaction -----

  /** Another file without zero bytes comes out as the move left it. */
  lemma ShiftedOther(e: Disk, name: string, t: nat, bytes: nat, order: seq<string>, n: string)
    requires Shiftable(e, name, t, bytes, order) && n in e.files && n != name
    ensures HasRoot(e, n) && Names(Moved(e, name, t, bytes), order)
    ensures var g := Shifted(e, name, t, bytes, order);
            && HasRoot(g, n) && g.files[n].size == e.files[n].size
            && (ZeroFree(Bytes(e, e.files[n])) ==> Bytes(g, g.files[n]) == AfterMove(e, name, t, n))
  {
    hide StartBit, BlocksPerBits, Relocate, Compact, Laid, Movable, Decode, Content, Names, Ready;
    var m := Moved(e, name, t, bytes);
    MovedOther(e, name, t, bytes, n);
    ShiftReady(e, name, t, bytes, order);
    assert n in m.files;
    var j := PlaceOf(m, order, n);
    CompactionPreserves(m, order, j);
  }

  lemma PlaceOf(m: Disk, order: seq<string>, n: string) returns (j: nat)
    requires Ready(m, order) && Names(m, order) && n in m.files
    ensures j < |order| && order[j] == n && Nth(m, order, j) == m.files[n]
  {
    j :| 0 <= j < |order| && order[j] == n;
  }

  /** The moved file without zero bytes comes out with as many of its first bytes as its record says. */
  lemma ShiftedOwn(e: Disk, name: string, t: nat, bytes: nat, order: seq<string>)
    requires Shiftable(e, name, t, bytes, order)
    ensures Names(Moved(e, name, t, bytes), order)
    ensures var g := Shifted(e, name, t, bytes, order);
            && HasRoot(g, name) && g.files[name].size == bytes
            && (bytes <= e.files[name].size && ZeroFree(Bytes(e, e.files[name])) ==>
                  Bytes(g, g.files[name]) == Bytes(e, e.files[name])[..bytes])
  {
    hide StartBit, BlocksPerBits, Relocate, Compact, Laid, Decode, Content, Names, Ready;
    var m := Moved(e, name, t, bytes);
    MovedFiles(e, name, t, bytes);
    ShiftReady(e, name, t, bytes, order);
    var j := PlaceOf(m, order, name);
    CompactionPreserves(m, order, j);
    if bytes <= e.files[name].size && ZeroFree(Bytes(e, e.files[name])) {
      MovedOwn(e, name, t, bytes);
    }
  }

  lemma MovedOwn(e: Disk, name: string, t: nat, bytes: nat)
    requires Movable(e, name, t, bytes) && bytes <= e.files[name].size && ZeroFree(Bytes(e, e.files[name]))
    ensures var m := Moved(e, name, t, bytes);
            && HasRoot(m, name) && m.files[name] == File(t, bytes)
            && Bytes(m, m.files[name]) == Bytes(e, e.files[name])[..bytes]
  {
    hide StartBit, BlocksPerBits, Relocate, Laid, Decode;
    var m, f := Moved(e, name, t, bytes), e.files[name];
    MovedFiles(e, name, t, bytes);
    MoveKeepsZeroFree(e, name, t, bytes);
    ContentInRange(e, f);
    ContentInRange(m, File(t, f.size));
    EightTimes(f.size);
    PrefixBytes(Content(e, f), bytes);
    assert Content(m, File(t, bytes)) == Content(m, File(t, f.size))[..8 * bytes];
  }
}
