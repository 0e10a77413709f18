/**
 The byte streams of the messages: numbers in the byte order of the host, least significant byte first, and
 strings with their length and their terminating zero. Each operation works at an offset and moves it on.
 */
module Stream {
  import opened BitStrings
  import opened CTypes

  /** The four bytes of a number. */
  function BytesOf(v: u32): (s: seq<byte>)
    ensures |s| == 4
  {
    [v % 256, v / 256 % 256, v / 256 / 256 % 256, v / 256 / 256 / 256]
  }

  /** The number of four bytes, the first one weighing least. */
  function NumberOf(s: seq<byte>): (v: u32)
    requires |s| == 4
    ensures v == s[0] as int + s[1] as int * 0x100 + s[2] as int * 0x1_0000 + s[3] as int * 0x100_0000
  {
    var a: int, b: int, c: int, d: int := s[0], s[1], s[2], s[3];
    a + 256 * (b + 256 * (c + 256 * d))
  }

  lemma NumberRoundTrip(v: u32)
    ensures NumberOf(BytesOf(v)) == v
  {
  }

  lemma BytesRoundTrip(s: seq<byte>)
    requires |s| == 4
    ensures BytesOf(NumberOf(s)) == s
  {
    var a: int, b: int, c: int, d: int := s[0], s[1], s[2], s[3];
    var v := NumberOf(s);
    assert v / 256 == b + 256 * (c + 256 * d);
    assert v / 256 / 256 == c + 256 * d;
  }

  /** What a string adds to a stream. */
  function TextOf(s: seq<byte>): (r: seq<byte>)
    requires |s| + 1 < 0x1_0000_0000
  {
    BytesOf(|s| + 1) + s + [0]
  }

  /** The bytes before the first zero; none when there is no zero to end the string. */
  function UntilZero(s: seq<byte>): (r: Option<seq<byte>>) {
    if |s| == 0 then None
    else if s[0] == 0 then Some([])
    else match UntilZero(s[1..])
      case None => None
      case Some(rest) => Some([s[0]] + rest)
  }

  lemma {:induction false} UntilZeroIff(s: seq<byte>, r: seq<byte>)
    ensures UntilZero(s) == Some(r) <==> ZeroFree(r) && |r| < |s| && s[..|r|] == r && s[|r|] == 0
  {
    if |s| > 0 && s[0] != 0 {
      var rest := if |r| > 0 then r[1..] else [];
      UntilZeroIff(s[1..], rest);
      if |r| > 0 && r[0] == s[0] {
        assert r == [s[0]] + rest;
        assert |r| < |s| ==> (s[..|r|] == r <==> s[1..][..|rest|] == rest);
        assert ZeroFree(r) <==> ZeroFree(rest) by {
          assert forall i :: 0 <= i < |rest| ==> rest[i] == r[i + 1];
        }
      } else if |r| == 0 {
        assert s[|r|] != 0;
      } else {
        assert |r| < |s| ==> s[..|r|][0] != r[0];
      }
    }
  }

  /** A number at an offset, if the stream reaches that far. */
  function NumberAt(s: seq<byte>, offset: nat): (r: Option<u32>) {
    if offset + 4 <= |s| then Some(NumberOf(s[offset..offset + 4])) else None
  }

  /** A string at an offset and where it ends: the length says how many bytes are taken, the zero where it ends. */
  function TextAt(s: seq<byte>, offset: nat): (r: Option<(seq<byte>, nat)>)
    ensures r.Some? ==> offset + 4 <= r.value.1 <= |s|
  {
    match NumberAt(s, offset)
    case None => None
    case Some(n) =>
      if offset + 4 + n > |s| then None
      else match UntilZero(s[offset + 4..offset + 4 + n])
        case None => None
        case Some(text) => Some((text, offset + 4 + n))
  }

  /** A stream that goes on with given bytes at an offset. */
  predicate Holds(s: seq<byte>, offset: nat, part: seq<byte>) {
    offset + |part| <= |s| && s[offset..offset + |part|] == part
  }

  lemma HoldsSplit(s: seq<byte>, offset: nat, a: seq<byte>, b: seq<byte>)
    ensures Holds(s, offset, a + b) <==> Holds(s, offset, a) && Holds(s, offset + |a|, b)
  {
    if offset + |a| + |b| <= |s| {
      var all := s[offset..offset + |a| + |b|];
      assert all == s[offset..offset + |a|] + s[offset + |a|..offset + |a| + |b|];
      if all == a + b {
        assert all[..|a|] == a && all[|a|..] == b;
      }
    }
  }

  lemma NumberAtIff(s: seq<byte>, offset: nat, v: u32)
    ensures NumberAt(s, offset) == Some(v) <==> Holds(s, offset, BytesOf(v))
  {
    NumberRoundTrip(v);
    if offset + 4 <= |s| {
      BytesRoundTrip(s[offset..offset + 4]);
    }
  }

  /** A string written is the string read, and the next reading starts where the next writing did. */
  lemma TextAtWritten(s: seq<byte>, offset: nat, text: seq<byte>)
    requires ZeroFree(text) && |text| + 1 < 0x1_0000_0000 && Holds(s, offset, TextOf(text))
    ensures TextAt(s, offset) == Some((text, offset + |TextOf(text)|))
  {
    hide NumberOf, BytesOf, NumberAt;
    HoldsSplit(s, offset, BytesOf(|text| + 1), text + [0]);
    assert BytesOf(|text| + 1) + (text + [0]) == TextOf(text);
    NumberAtIff(s, offset, |text| + 1);
    var data := s[offset + 4..offset + 4 + |text| + 1];
    assert data == text + [0];
    UntilZeroIff(data, text);
  }

  // ----- the buffer in place -----

  /** What the stream is after `part` has been copied to an offset. */
  function Patched(s: seq<byte>, offset: nat, part: seq<byte>): (r: seq<byte>)
    requires offset + |part| <= |s|
    ensures |r| == |s| && Holds(r, offset, part)
    ensures r[..offset] == s[..offset] && r[offset + |part|..] == s[offset + |part|..]
  {
    s[..offset] + part + s[offset + |part|..]
  }

  class Buffer {
    const stream: array<byte>

    constructor (size: nat)
      ensures fresh(stream) && stream.Length == size
    {
      stream := new byte[size];
    }

    method BufferAdd(data: seq<byte>, offset: nat) returns (next: nat)
      requires offset + |data| <= stream.Length
      modifies stream
      ensures stream[..] == Patched(old(stream[..]), offset, data) && next == offset + |data|
    {
      forall i | 0 <= i < |data| {
        stream[offset + i] := data[i];
      }
      next := offset + |data|;
      assert stream[..] == Patched(old(stream[..]), offset, data);
    }

    method BufferAddUint32(v: u32, offset: nat) returns (next: nat)
      requires offset + 4 <= stream.Length
      modifies stream
      ensures stream[..] == Patched(old(stream[..]), offset, BytesOf(v)) && next == offset + 4
    {
      next := BufferAdd(BytesOf(v), offset);
    }

    method BufferAddUint8(v: byte, offset: nat) returns (next: nat)
      requires offset + 1 <= stream.Length
      modifies stream
      ensures stream[..] == Patched(old(stream[..]), offset, [v]) && next == offset + 1
    {
      next := BufferAdd([v], offset);
    }

    method BufferAddString(text: seq<byte>, offset: nat) returns (next: nat)
      requires |text| + 1 < 0x1_0000_0000 && offset + |text| + 5 <= stream.Length
      modifies stream
      ensures stream[..] == Patched(old(stream[..]), offset, TextOf(text)) && next == offset + |text| + 5
    {
      hide BytesOf;
      ghost var was := stream[..];
      next := BufferAddUint32(|text| + 1, offset);
      next := BufferAdd(text + [0], next);
      PatchTwice(was, offset, BytesOf(|text| + 1), text + [0]);
      assert BytesOf(|text| + 1) + (text + [0]) == TextOf(text);
    }

    method BufferReadUint32(offset: nat) returns (v: u32, next: nat)
      requires offset + 4 <= stream.Length
      ensures NumberAt(stream[..], offset) == Some(v) && next == offset + 4
    {
      v := NumberOf(stream[offset..offset + 4]);
      next := offset + 4;
      assert stream[..][offset..offset + 4] == stream[offset..offset + 4];
    }

    method BufferReadUint8(offset: nat) returns (v: byte, next: nat)
      requires offset < stream.Length
      ensures Holds(stream[..], offset, [v]) && next == offset + 1
    {
      v := stream[offset];
      next := offset + 1;
    }

    /** The data copied out; the program reads it up to its first zero. */
    method BufferReadString(offset: nat) returns (text: seq<byte>, next: nat)
      requires TextAt(stream[..], offset).Some?
      ensures TextAt(stream[..], offset) == Some((text, next))
    {
      hide NumberOf;
      var length;
      length, next := BufferReadUint32(offset);
      var data := stream[next..next + length];
      assert stream[..][offset + 4..offset + 4 + length] == data;
      text := UntilZero(data).value;
      next := next + length;
    }
  }

  lemma PatchTwice(s: seq<byte>, offset: nat, a: seq<byte>, b: seq<byte>)
    requires offset + |a| + |b| <= |s|
    ensures Patched(Patched(s, offset, a), offset + |a|, b) == Patched(s, offset, a + b)
  {
  }
}
