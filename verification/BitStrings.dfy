/**
 Bit strings: the conversions between a byte and its eight bits, most significant bit first,
 that the file system uses to keep text in a bit array. A bit string is a `seq<bool>`;
 a C string is a `seq<byte>` without zeros.
 */
module BitStrings {

  type byte = x: int | 0 <= x < 256

  function Pow2(n: nat): (p: nat)
    ensures p > 0
  {
    if n == 0 then 1 else 2 * Pow2(n - 1)
  }

  /** The value of a bit string read most significant bit first. */
  function Value(bits: seq<bool>): nat {
    if |bits| == 0 then 0
    else 2 * Value(bits[..|bits| - 1]) + (if bits[|bits| - 1] then 1 else 0)
  }

  /** The `n` low bits of `v`, most significant first. */
  function BitsOf(n: nat, v: nat): (bits: seq<bool>)
    ensures |bits| == n
  {
    if n == 0 then [] else BitsOf(n - 1, v / 2) + [v % 2 == 1]
  }

  lemma {:induction false} ValueOfBits(n: nat, v: nat)
    requires v < Pow2(n)
    ensures Value(BitsOf(n, v)) == v
  {
    if n > 0 {
      ValueOfBits(n - 1, v / 2);
      assert BitsOf(n, v)[..n - 1] == BitsOf(n - 1, v / 2);
    }
  }

  lemma {:induction false} BitsOfValue(bits: seq<bool>)
    ensures Value(bits) < Pow2(|bits|)
    ensures BitsOf(|bits|, Value(bits)) == bits
  {
    if |bits| > 0 {
      var front := bits[..|bits| - 1];
      BitsOfValue(front);
      assert Value(bits) / 2 == Value(front);
      assert bits == front + [bits[|bits| - 1]];
    }
  }

  /** The order of the digits: the first one weighs most. */
  lemma {:induction false} BitAt(n: nat, v: nat, i: nat)
    requires i < n
    ensures BitsOf(n, v)[i] <==> v / Pow2(n - 1 - i) % 2 == 1
  {
    if i < n - 1 {
      BitAt(n - 1, v / 2, i);
      HalveFirst(v, n - 2 - i);
    }
  }

  lemma {:induction false} HalveFirst(v: nat, n: nat)
    ensures v / 2 / Pow2(n) == v / Pow2(n + 1)
  {
    if n > 0 {
      HalveFirst(v, n - 1);
      HalvePow2(v / 2, n - 1);
      HalvePow2(v, n);
    }
  }

  lemma ByteRange(bits: seq<bool>)
    requires |bits| == 8
    ensures Value(bits) < 256
  {
    BitsOfValue(bits);
    assert Pow2(8) == 256;
  }

  lemma HalvePow2(v: nat, n: nat)
    ensures v / Pow2(n) / 2 == v / Pow2(n + 1)
  {
    var p := Pow2(n);
    var q := v / p;
    assert v == p * q + v % p;
    var h := q / 2;
    assert q == 2 * h + q % 2;
    assert v == (2 * p) * h + (p * (q % 2) + v % p);
    assert 0 <= p * (q % 2) + v % p < 2 * p;
    DivisionIsUnique(v, 2 * p, h, p * (q % 2) + v % p);
  }

  lemma MulMonotone(d: nat, x: int, y: int)
    requires x <= y
    ensures d * x <= d * y
  {
  }

  lemma DivisionIsUnique(v: int, d: int, q: int, r: int)
    requires d > 0 && v == d * q + r && 0 <= r < d
    ensures v / d == q
  {
    var q' := v / d;
    assert v == d * q' + v % d;
    if q' > q {
      MulMonotone(d, q + 1, q');
    } else if q' < q {
      MulMonotone(d, q' + 1, q);
    }
  }

  /** One byte written as eight bits; only the low eight bits of `num` matter. */
  method IntToBinary8Bits(num: int) returns (bits: seq<bool>)
    ensures bits == BitsOf(8, num % 256)
  {
    var low := num % 256;
    bits := [];
    var i := 7;
    assert low / Pow2(8) == 0 by { assert Pow2(8) == 256; }
    while i >= 0
      invariant -1 <= i <= 7
      invariant bits == BitsOf(7 - i, low / Pow2(i + 1))
    {
      HalvePow2(low, i);
      bits := bits + [(low / Pow2(i)) % 2 == 1];
      i := i - 1;
    }
    assert low / Pow2(0) == low;
  }

  /** Eight bits folded back into a number; any other length is the error value -1. */
  method BinaryToInt8Bits(bits: seq<bool>) returns (r: int)
    ensures r == if |bits| == 8 then Value(bits) else -1
  {
    if |bits| != 8 {
      return -1;
    }
    r := 0;
    for i := 0 to 8
      invariant r == Value(bits[..i])
    {
      assert bits[..i + 1][..i] == bits[..i];
      r := 2 * r + (if bits[i] then 1 else 0);
    }
    assert bits[..8] == bits;
  }

  /** The bits of a byte sequence, first byte first. */
  function Encode(data: seq<byte>): (bits: seq<bool>)
    ensures |bits| == 8 * |data|
  {
    if |data| == 0 then [] else Encode(data[..|data| - 1]) + BitsOf(8, data[|data| - 1])
  }

  /** The bytes of a bit sequence; trailing bits that do not fill a byte come first and are skipped. */
  function Decode(bits: seq<bool>): (data: seq<byte>)
    ensures |data| == |bits| / 8
  {
    if |bits| < 8 then []
    else
      ByteRange(bits[|bits| - 8..]);
      Decode(bits[..|bits| - 8]) + [Value(bits[|bits| - 8..])]
  }

  lemma {:induction false} DecodeEncode(data: seq<byte>)
    ensures Decode(Encode(data)) == data
  {
    if |data| > 0 {
      var front, last := data[..|data| - 1], data[|data| - 1];
      DecodeEncode(front);
      var bits := Encode(data);
      assert bits[..|bits| - 8] == Encode(front);
      assert bits[|bits| - 8..] == BitsOf(8, last);
      assert Value(BitsOf(8, last)) == last by {
        assert Pow2(8) == 256;
        ValueOfBits(8, last);
      }
      assert data == front + [last];
    }
  }

  lemma EncodeLast(data: seq<byte>, x: byte)
    ensures Encode(data + [x]) == Encode(data) + BitsOf(8, x)
  {
    var all := data + [x];
    assert all[..|all| - 1] == data;
  }

  lemma DecodeLast(bits: seq<bool>)
    requires |bits| >= 8
    ensures |bits[|bits| - 8..]| == 8 && 0 <= Value(bits[|bits| - 8..]) < 256
    ensures Decode(bits) == Decode(bits[..|bits| - 8]) + [Value(bits[|bits| - 8..])]
  {
    ByteRange(bits[|bits| - 8..]);
  }

  lemma EightLess(n: nat)
    requires n % 8 == 0 && n > 0
    ensures n >= 8 && (n - 8) % 8 == 0
  {
  }

  lemma {:induction false} EncodeDecode(bits: seq<bool>)
    requires |bits| % 8 == 0
    ensures Encode(Decode(bits)) == bits
  {
    hide Encode, Decode, BitsOf, Value;
    if |bits| > 0 {
      EightLess(|bits|);
      var front, last := bits[..|bits| - 8], bits[|bits| - 8..];
      EncodeDecode(front);
      DecodeLast(bits);
      BitsOfValue(last);
      EncodeLast(Decode(front), Value(last));
      assert bits == front + last;
    } else {
      DecodeNothing(bits);
    }
  }

  lemma DecodeNothing(bits: seq<bool>)
    requires bits == []
    ensures Decode(bits) == [] && Encode([]) == []
  {
  }

  lemma Grouped<T>(a: seq<T>, b: seq<T>, c: seq<T>)
    ensures a + b + c == a + (b + c)
  {
  }

  lemma EightTimes(n: nat)
    ensures 8 * n % 8 == 0
  {
  }

  lemma HeadOfBoth<T>(a: seq<T>, b: seq<T>)
    ensures (a + b)[..|a|] == a && (a + b)[|a|..] == b
  {
  }

  lemma CutConcat<T>(a: seq<T>, b: seq<T>, n: nat)
    requires n <= |b|
    ensures (a + b)[..|a + b| - n] == a + b[..|b| - n] && (a + b)[|a + b| - n..] == b[|b| - n..]
  {
  }

  lemma {:induction false} DecodeConcat(a: seq<bool>, b: seq<bool>)
    requires |b| % 8 == 0
    ensures Decode(a + b) == Decode(a) + Decode(b)
    decreases |b|
  {
    hide Decode, Value;
    if |b| == 0 {
      assert a + b == a;
      DecodeNothing(b);
    } else {
      EightLess(|b|);
      var front := b[..|b| - 8];
      DecodeConcat(a, front);
      CutConcat(a, b, 8);
      DecodeLast(b);
      DecodeLast(a + b);
      Grouped(Decode(a), Decode(front), [Value(b[|b| - 8..])]);
    }
  }

  /** The first bytes are those of the first bits. */
  lemma PrefixBytes(c: seq<bool>, k: nat)
    requires |c| % 8 == 0 && 8 * k <= |c|
    ensures Decode(c)[..k] == Decode(c[..8 * k])
  {
    hide Decode;
    var rest := c[8 * k..];
    assert c == c[..8 * k] + rest;
    RestOfEights(|c|, k);
    DecodeConcat(c[..8 * k], rest);
    HeadOfBoth(Decode(c[..8 * k]), Decode(rest));
  }

  lemma RestOfEights(n: nat, k: nat)
    requires n % 8 == 0 && 8 * k <= n
    ensures (n - 8 * k) % 8 == 0 && 8 * k / 8 == k
  {
  }

  lemma {:induction false} EncodeConcat(a: seq<byte>, b: seq<byte>)
    ensures Encode(a + b) == Encode(a) + Encode(b)
    decreases |b|
  {
    if |b| == 0 {
      assert a + b == a;
    } else {
      var front := b[..|b| - 1];
      EncodeConcat(a, front);
      assert (a + b)[..|a + b| - 1] == a + front;
    }
  }

  /** What is left of a byte sequence when every zero is dropped. */
  function NonZero(data: seq<byte>): (r: seq<byte>)
    ensures |r| <= |data|
    ensures forall i :: 0 <= i < |r| ==> r[i] != 0
  {
    if |data| == 0 then []
    else NonZero(data[..|data| - 1]) + (if data[|data| - 1] != 0 then [data[|data| - 1]] else [])
  }

  ghost predicate ZeroFree(data: seq<byte>) {
    forall i :: 0 <= i < |data| ==> data[i] != 0
  }

  /** The place of the first zero; the length when there is none. */
  function FirstZero(data: seq<byte>): (z: nat)
    ensures z <= |data| && (z < |data| ==> data[z] == 0) && forall i :: 0 <= i < z ==> data[i] != 0
  {
    if |data| == 0 || data[0] == 0 then 0 else 1 + FirstZero(data[1..])
  }

  lemma {:induction false} NonZeroConcat(a: seq<byte>, b: seq<byte>)
    ensures NonZero(a + b) == NonZero(a) + NonZero(b)
    decreases |b|
  {
    if |b| == 0 {
      assert a + b == a;
    } else {
      NonZeroConcat(a, b[..|b| - 1]);
      assert (a + b)[..|a + b| - 1] == a + b[..|b| - 1];
    }
  }

  lemma {:induction false} NonZeroKeepsAll(a: seq<byte>)
    requires ZeroFree(a)
    ensures NonZero(a) == a
  {
    if |a| > 0 {
      NonZeroKeepsAll(a[..|a| - 1]);
      assert a == a[..|a| - 1] + [a[|a| - 1]];
    }
  }

  lemma {:induction false} NonZeroOfZeros(a: seq<byte>)
    requires forall i :: 0 <= i < |a| ==> a[i] == 0
    ensures NonZero(a) == []
  {
    if |a| > 0 {
      NonZeroOfZeros(a[..|a| - 1]);
    }
  }

  /** `s` with `w` written over it from position `at`. */
  function Overlay<T>(s: seq<T>, at: nat, w: seq<T>): (r: seq<T>)
    requires at + |w| <= |s|
    ensures |r| == |s|
    ensures forall i {:trigger r[i]} :: 0 <= i < |s| ==> r[i] == if at <= i < at + |w| then w[i - at] else s[i]
  {
    s[..at] + w + s[at + |w|..]
  }

  lemma OverlayFrame<T>(s: seq<T>, at: nat, w: seq<T>, lo: nat, hi: nat)
    requires at + |w| <= |s| && lo <= hi <= |s|
    requires hi <= at || at + |w| <= lo
    ensures Overlay(s, at, w)[lo..hi] == s[lo..hi]
  {
  }

  /** The end of what was written. */
  lemma OverlayEnd<T>(s: seq<T>, start: nat, a: seq<T>, b: seq<T>)
    requires start + |a| + |b| <= |s|
    ensures Overlay(s, start, a + b)[start + |a|..start + |a| + |b|] == b
  {
  }

  lemma OverlayPart<T>(s: seq<T>, lo: nat, n: nat, at: nat, w: seq<T>)
    requires lo + n <= |s| && at + |w| <= n
    ensures Overlay(s, lo + at, w)[lo..lo + n] == Overlay(s[lo..lo + n], at, w)
  {
  }
}
