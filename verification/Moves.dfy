/**
 What one move of a file does to contents: which bits it touches, and exactly when the file's bytes
 survive it.
 */
module Moves {
  import opened CTypes
  import opened BitStrings
  import opened DiskModel

  /** The byte that follows the recorded bytes of a file on the disk. */
  function Stray(d: Disk, f: File): (b: byte)
    requires WellFormed(d) && Placed(d, f)
  {
    ContentInRange(d, f);
    var at := StartBit(d.bs, f.block) + 8 * f.size;
    ByteRange(d.blocks[at..at + 8]);
    Value(d.blocks[at..at + 8])
  }

  function Bytes(d: Disk, f: File): (c: seq<byte>)
    requires WellFormed(d) && Placed(d, f)
    ensures |c| == f.size
  {
    Decode(Content(d, f))
  }

  lemma OneByte(s: seq<bool>)
    requires |s| == 8
    ensures Value(s) < 256 && Decode(s) == [Value(s)]
  {
    ByteRange(s);
    assert s[0..] == s && s[..0] == [];
  }

  /** The text carried by a move: the recorded bytes and the byte after them, without zeros. */
  lemma TextOfFile(d: Disk, f: File)
    requires WellFormed(d) && Placed(d, f)
    ensures StartBit(d.bs, f.block) + 8 * (f.size + 1) <= |d.blocks|
    ensures ReadText(d.blocks, StartBit(d.bs, f.block), f.size)
         == NonZero(Bytes(d, f)) + NonZero([Stray(d, f)])
  {
    hide StartBit, BlocksPerBits, ReadText, Decode, NonZero, Value;
    ContentInRange(d, f);
    TextSplit(d.blocks, StartBit(d.bs, f.block), f.size);
  }

  lemma TextSplit(blocks: seq<bool>, at: nat, n: nat)
    requires at + 8 * (n + 1) <= |blocks|
    ensures var s := blocks[at + 8 * n..at + 8 * n + 8];
            Value(s) < 256
            && ReadText(blocks, at, n) == NonZero(Decode(blocks[at..at + 8 * n])) + NonZero([Value(s)])
  {
    hide Decode, NonZero, Value;
    var mid, end := at + 8 * n, at + 8 * (n + 1);
    var c, s := blocks[at..mid], blocks[mid..end];
    assert blocks[at..end] == c + s;
    DecodeConcat(c, s);
    OneByte(s);
    NonZeroConcat(Decode(c), Decode(s));
  }

  /** A move touches no bit outside the moved bytes and one byte more. */
  lemma MoveFrame(d: Disk, name: string, nb: nat, size: nat, lo: nat, hi: nat)
    requires CanMove(d, name, nb, size)
    requires lo <= hi <= |d.blocks|
    requires hi <= StartBit(d.bs, nb) || StartBit(d.bs, nb) + 8 * (d.files[name].size + 1) <= lo
    ensures Relocate(d, name, nb, size).blocks[lo..hi] == d.blocks[lo..hi]
  {
    MoveInRange(d, name, nb, size);
    var f := d.files[name];
    var text := ReadText(d.blocks, StartBit(d.bs, f.block), f.size);
    OverlayFrame(d.blocks, StartBit(d.bs, nb), Encode(text), lo, hi);
  }

  lemma OverlayRead<T>(s: seq<T>, at: nat, w: seq<T>, n: nat)
    requires at + |w| <= |s| && at + n <= |s|
    ensures var m := Min(|w|, n);
            Overlay(s, at, w)[at..at + n] == w[..m] + s[at..at + n][m..]
  {
  }

  lemma EncodePrefix(text: seq<byte>, m: nat)
    requires m <= |text|
    ensures Encode(text)[..8 * m] == Encode(text[..m])
  {
    hide Encode;
    EncodeConcat(text[..m], text[m..]);
    assert text[..m] + text[m..] == text;
    HeadOfBoth(Encode(text[..m]), Encode(text[m..]));
  }

  lemma DecodeParts(bits: seq<bool>, a: seq<bool>, b: seq<bool>, m: nat)
    requires bits == a + b && |a| == 8 * m && |b| % 8 == 0
    ensures Decode(bits) == Decode(a) + Decode(b) && |Decode(a)| == m
  {
    DecodeConcat(a, b);
  }

  /** Text written over a bit array, read back as `n` bytes: the text, then what was there. */
  lemma DecodeOverlay(s: seq<bool>, at: nat, text: seq<byte>, n: nat, now: seq<bool>, was: seq<bool>)
    requires at + 8 * |text| <= |s| && at + 8 * n <= |s|
    requires now == Overlay(s, at, Encode(text))[at..at + 8 * n] && was == s[at..at + 8 * n]
    ensures Decode(now) == text[..Min(|text|, n)] + Decode(was)[Min(|text|, n)..]
  {
    hide Encode, Decode, Overlay;
    var m := Min(|text|, n);
    var head, tail := was[..8 * m], was[8 * m..];
    OverlayRead(s, at, Encode(text), 8 * n);
    EncodePrefix(text, m);
    EightTimes(n - m);
    assert was == head + tail && |tail| == 8 * (n - m);
    DecodeParts(was, head, tail, m);
    DecodeParts(now, Encode(text[..m]), tail, m);
    DecodeEncode(text[..m]);
  }

  function Kept(c: seq<byte>, stray: byte): (text: seq<byte>) {
    NonZero(c) + NonZero([stray])
  }

  /** Byte by byte, what a move leaves at the new place: its text, then whatever was there. */
  lemma MovedBytes(d: Disk, name: string, nb: nat, size: nat)
    requires CanMove(d, name, nb, size)
    ensures var f := d.files[name];
            var text, there := Kept(Bytes(d, f), Stray(d, f)), Bytes(d, File(nb, f.size));
            Bytes(Relocate(d, name, nb, size), File(nb, f.size))
            == text[..Min(|text|, f.size)] + there[Min(|text|, f.size)..]
  {
    hide StartBit, BlocksPerBits, Encode, NonZero, Decode;
    var f := d.files[name];
    MoveInRange(d, name, nb, size);
    TextOfFile(d, f);
    DecodeOverlay(d.blocks, StartBit(d.bs, nb), Kept(Bytes(d, f), Stray(d, f)), f.size,
                  Content(Relocate(d, name, nb, size), File(nb, f.size)), Content(d, File(nb, f.size)));
  }

  /** A file without zero bytes arrives whole. */
  lemma MoveKeepsZeroFree(d: Disk, name: string, nb: nat, size: nat)
    requires CanMove(d, name, nb, size)
    requires ZeroFree(Bytes(d, d.files[name]))
    ensures var f := d.files[name];
            Content(Relocate(d, name, nb, size), File(nb, f.size)) == Content(d, f)
  {
    var f, r := d.files[name], Relocate(d, name, nb, size);
    MovedBytes(d, name, nb, size);
    NonZeroKeepsAll(Bytes(d, f));
    assert Bytes(r, File(nb, f.size)) == Bytes(d, f);
    EncodeDecode(Content(d, f));
    EncodeDecode(Content(r, File(nb, f.size)));
  }

  /**
   What a caller can check before a move: every zero byte of the file is followed by zeros only, up to
   and including the byte after the file, and already lies over a zero at the new place.
   */
  ghost predicate Survives(c: seq<byte>, stray: byte, there: seq<byte>)
    requires |c| == |there|
  {
    forall i :: 0 <= i < |c| && c[i] == 0 ==>
      stray == 0 && there[i] == 0 && forall j :: i <= j < |c| ==> c[j] == 0
  }

  lemma {:induction false} NonZeroEmpty(a: seq<byte>)
    requires NonZero(a) == []
    ensures forall i :: 0 <= i < |a| ==> a[i] == 0
  {
    if |a| > 0 {
      NonZeroEmpty(a[..|a| - 1]);
    }
  }

  lemma KeptSplit(c: seq<byte>, stray: byte)
    ensures var z := FirstZero(c);
            Kept(c, stray) == c[..z] + (NonZero(c[z..]) + NonZero([stray]))
  {
    hide NonZero, FirstZero;
    var z := FirstZero(c);
    assert c == c[..z] + c[z..];
    NonZeroConcat(c[..z], c[z..]);
    NonZeroKeepsAll(c[..z]);
    Grouped(c[..z], NonZero(c[z..]), NonZero([stray]));
  }

  lemma SurvivesThenSame(c: seq<byte>, stray: byte, there: seq<byte>)
    requires |c| == |there| && Survives(c, stray, there)
    ensures var text := Kept(c, stray); text[..Min(|text|, |c|)] + there[Min(|text|, |c|)..] == c
  {
    KeptSplit(c, stray);
    NonZeroOfZeros(c[FirstZero(c)..]);
    assert [stray][..0] == [];
  }

  lemma SameThenSurvives(c: seq<byte>, stray: byte, there: seq<byte>)
    requires |c| == |there|
    requires var text := Kept(c, stray); text[..Min(|text|, |c|)] + there[Min(|text|, |c|)..] == c
    ensures Survives(c, stray, there)
  {
    KeptSplit(c, stray);
    var z, text := FirstZero(c), Kept(c, stray);
    var m := Min(|text|, |c|);
    assert [stray][..0] == [];
    if z < |c| {
      assert forall j :: 0 <= j < m ==> (text[..m] + there[m..])[j] == text[j] && text[j] != 0;
      assert m <= z;
      NonZeroEmpty(c[z..]);
      assert forall j :: z <= j < |c| ==> c[j] == c[z..][j - z];
      assert forall j :: m <= j < |c| ==> (text[..m] + there[m..])[j] == there[j];
    }
  }

  /** Exactly when a move keeps the bytes of the file. */
  lemma MoveKeepsBytesIff(d: Disk, name: string, nb: nat, size: nat)
    requires CanMove(d, name, nb, size)
    ensures var f := d.files[name];
            Bytes(Relocate(d, name, nb, size), File(nb, f.size)) == Bytes(d, f)
            <==> Survives(Bytes(d, f), Stray(d, f), Bytes(d, File(nb, f.size)))
  {
    var f := d.files[name];
    var c, stray, there := Bytes(d, f), Stray(d, f), Bytes(d, File(nb, f.size));
    MovedBytes(d, name, nb, size);
    if Survives(c, stray, there) {
      SurvivesThenSame(c, stray, there);
    } else if Bytes(Relocate(d, name, nb, size), File(nb, f.size)) == c {
      SameThenSurvives(c, stray, there);
    }
  }

  // ----- the byte after the file -----

  lemma {:induction false} NonZeroWhole(a: seq<byte>)
    ensures |NonZero(a)| == |a| <==> ZeroFree(a)
  {
    if |a| > 0 {
      NonZeroWhole(a[..|a| - 1]);
      assert a == a[..|a| - 1] + [a[|a| - 1]];
    }
  }

  /** The text of a move is as long as the file and one byte more exactly when nothing of it is zero. */
  lemma KeptWhole(c: seq<byte>, stray: byte)
    ensures |Kept(c, stray)| <= |c| + 1
    ensures |Kept(c, stray)| == |c| + 1 <==> ZeroFree(c) && stray != 0
    ensures |Kept(c, stray)| == |c| + 1 ==> Kept(c, stray) == c + [stray]
  {
    NonZeroWhole(c);
    assert [stray][..0] == [];
    if ZeroFree(c) {
      NonZeroKeepsAll(c);
    }
  }

  /** A moved file writes the byte after its blocks: it fills them, has no zero byte, and a byte other than zero follows. */
  ghost predicate Spills(d: Disk, f: File)
    requires WellFormed(d) && Placed(d, f)
  {
    StartBit(d.bs, Blocks(d, f)) == 8 * f.size && ZeroFree(Bytes(d, f)) && Stray(d, f) != 0
  }

  /** A byte at or after the end of the moved bytes, after a move of the file. */
  lemma ByteAfterMove(d: Disk, name: string, nb: nat, size: nat, at: nat)
    requires CanMove(d, name, nb, size) && at + 8 <= |d.blocks|
    requires StartBit(d.bs, nb) + 8 * d.files[name].size <= at && at % 8 == 0
    ensures Value(d.blocks[at..at + 8]) < 256
    ensures var f := d.files[name];
            Value(Relocate(d, name, nb, size).blocks[at..at + 8])
            == if StartBit(d.bs, nb) + 8 * f.size == at && ZeroFree(Bytes(d, f)) && Stray(d, f) != 0 then Stray(d, f)
               else Value(d.blocks[at..at + 8])
  {
    hide StartBit, BlocksPerBits, Decode, Value, NonZero, ReadText, Encode, Overlay, Bytes, Stray;
    var f := d.files[name];
    MoveInRange(d, name, nb, size);
    TextOfFile(d, f);
    ByteRange(d.blocks[at..at + 8]);
    var c, stray := Bytes(d, f), Stray(d, f);
    var text := Kept(c, stray);
    KeptWhole(c, stray);
    var start := StartBit(d.bs, nb);
    assert Relocate(d, name, nb, size).blocks == Overlay(d.blocks, start, Encode(text));
    StartBitMonotone(d.bs, nb, nb);
    LastByte(d.blocks, start, c, stray, text, at);
  }

  lemma LastByte(s: seq<bool>, start: nat, c: seq<byte>, stray: byte, text: seq<byte>, at: nat)
    requires start + 8 * |text| <= |s| && at + 8 <= |s| && start % 8 == 0 && at % 8 == 0 && start + 8 * |c| <= at
    requires |text| <= |c| + 1 && (|text| == |c| + 1 ==> text == c + [stray])
    ensures Value(Overlay(s, start, Encode(text))[at..at + 8])
         == if start + 8 * |c| == at && |text| == |c| + 1 then stray else Value(s[at..at + 8])
  {
    hide Encode, Value, BitsOf, Overlay;
    if start + 8 * |c| == at && |text| == |c| + 1 {
      EncodeLast(c, stray);
      OverlayEnd(s, start, Encode(c), BitsOf(8, stray));
      ValueOfByte(stray);
    } else {
      OverlayFrame(s, start, Encode(text), at, at + 8);
    }
  }

  lemma ValueOfByte(b: byte)
    ensures Value(BitsOf(8, b)) == b
  {
    assert Pow2(8) == 256;
    ValueOfBits(8, b);
  }

  /** The bytes of a file, the first one apart. */
  lemma FirstApart(d: Disk, g: File)
    requires WellFormed(d) && Placed(d, g) && g.size > 0
    ensures var at := StartBit(d.bs, g.block);
            && at + 8 * g.size <= |d.blocks| && Value(d.blocks[at..at + 8]) < 256
            && Bytes(d, g) == [Value(d.blocks[at..at + 8])] + Decode(d.blocks[at + 8..at + 8 * g.size])
  {
    hide StartBit, BlocksPerBits, Decode, Value;
    ContentInRange(d, g);
    var at := StartBit(d.bs, g.block);
    var head, tail := d.blocks[at..at + 8], d.blocks[at + 8..at + 8 * g.size];
    assert Content(d, g) == head + tail;
    EightTimes(g.size - 1);
    DecodeConcat(head, tail);
    OneByte(head);
  }
}
