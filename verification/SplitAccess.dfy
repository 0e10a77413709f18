/** A register of 32 bits read from memory when its four bytes lie on two pages. */
module SplitAccess {
  import opened BitStrings
  import opened CTypes
  import opened Stream
  import opened Paging
  import opened FlatMemory

  // ----- where the bytes lie -----

  /** pagina_dividida, and the same test in the reading of four bytes. */
  function PaginaDividida(la: nat, P: nat): (r: int)
    requires P > 0
  {
    var nPage := la / P;
    var offset := la - nPage * P;
    if offset + 4 > P then 1 else 0
  }

  lemma OffsetOf(la: nat, P: nat)
    requires P > 0
    ensures la - la / P * P == la % P
  {
    assert la == P * (la / P) + la % P;
  }

  lemma PageOf(la: nat, P: nat, page: nat, d: nat)
    requires P > 0 && la == page * P + d && d < P
    ensures la / P == page && la % P == d
  {
    assert page * P == P * page;
    DivisionIsUnique(la, P, page, d);
  }

  /** The test says split exactly when the last of the four bytes is on another page than the first. */
  lemma DividedIff(la: nat, P: nat)
    requires P > 0
    ensures PaginaDividida(la, P) == 1 <==> (la + 3) / P != la / P
  {
    OffsetOf(la, P);
    var page, d := la / P, la % P;
    if d + 4 <= P {
      PageOf(la + 3, P, page, d + 3);
    } else {
      OffsetOf(la + 3, P);
    }
  }

  /** How many of the four bytes are on the first page. */
  function FirstPart(la: nat, P: nat): (k: int)
    requires P > 0
  {
    4 - (la - la / P * P + 4 - P)
  }

  /** A split address on pages of at least four bytes: both parts are not empty, and the second starts its page. */
  lemma SplitShape(la: nat, P: nat)
    requires P >= 4 && PaginaDividida(la, P) == 1
    ensures var k := FirstPart(la, P);
            && 1 <= k <= 3 && la % P + k == P
            && (la + k) % P == 0 && (la + k) / P == la / P + 1 && (la + 3) / P == la / P + 1
  {
    OffsetOf(la, P);
    var page, d := la / P, la % P;
    var k := FirstPart(la, P);
    assert k == P - d;
    assert page * P + P == (page + 1) * P;
    PageOf(la + k, P, page + 1, 0);
    PageOf(la + 3, P, page + 1, 3 - k);
  }

  // ----- putting the value together -----

  /** dato_reconstruido: the low bytes of both readings, one after the other. */
  function Reconstructed(first: u32, second: u32, k: nat): (v: u32)
    requires k <= 4
  {
    NumberOf(BytesOf(first)[..k] + BytesOf(second)[..4 - k])
  }

  /** The copies into four bytes of memory. */
  method DatoReconstruido(first: u32, second: u32, k: nat) returns (v: u32)
    requires k <= 4
    ensures v == Reconstructed(first, second, k)
  {
    var dato := new byte[4];
    var a, b := BytesOf(first), BytesOf(second);
    forall i | 0 <= i < k {
      dato[i] := a[i];
    }
    forall i | 0 <= i < 4 - k {
      dato[k + i] := b[i];
    }
    assert dato[..] == a[..k] + b[..4 - k];
    v := NumberOf(dato[..]);
  }

  /** The value comes out exactly when the first reading has its low bytes and the second the others. */
  lemma ReconstructedIff(first: u32, second: u32, k: nat, v: u32)
    requires k <= 4
    ensures Reconstructed(first, second, k) == v
        <==> BytesOf(first)[..k] == BytesOf(v)[..k] && BytesOf(second)[..4 - k] == BytesOf(v)[k..]
  {
    hide BytesOf, NumberOf;
    var parts := BytesOf(first)[..k] + BytesOf(second)[..4 - k];
    BytesRoundTrip(parts);
    Stream.NumberRoundTrip(v);
    assert parts[..k] == BytesOf(first)[..k] && parts[k..] == BytesOf(second)[..4 - k];
    assert BytesOf(v) == BytesOf(v)[..k] + BytesOf(v)[k..];
  }

  function Power256(k: nat): (n: nat)
    requires k <= 3
  {
    if k == 0 then 1 else if k == 1 then 256 else if k == 2 then 65536 else 16777216
  }

  /** In numbers: the low bytes of the value and what is left above them give the value again. */
  lemma ReconstructedValue(v: u32, k: nat)
    requires 1 <= k <= 3
    ensures Reconstructed(v % Power256(k), v / Power256(k), k) == v
  {
    hide NumberOf;
    LowAndHigh(v, k);
    ReconstructedIff(v % Power256(k), v / Power256(k), k, v);
  }

  lemma LowAndHigh(v: u32, k: nat)
    requires 1 <= k <= 3
    ensures BytesOf(v % Power256(k))[..k] == BytesOf(v)[..k]
    ensures BytesOf(v / Power256(k))[..4 - k] == BytesOf(v)[k..]
  {
    hide NumberOf, BytesOf;
    var s := BytesOf(v);
    var low, high := s[..k] + Zeros(4 - k), s[k..] + Zeros(k);
    BytesRoundTrip(low);
    BytesRoundTrip(high);
    Stream.NumberRoundTrip(v);
    Parts(s, k);
    assert low[..k] == s[..k] && high[..4 - k] == s[k..];
  }

  function Zeros(n: nat): (s: seq<byte>)
    ensures |s| == n
  {
    seq(n, _ => 0)
  }

  lemma Parts(s: seq<byte>, k: nat)
    requires |s| == 4 && 1 <= k <= 3
    ensures NumberOf(s[..k] + Zeros(4 - k)) == NumberOf(s) % Power256(k)
    ensures NumberOf(s[k..] + Zeros(k)) == NumberOf(s) / Power256(k)
  {
    var a: int, b: int, c: int, d: int := s[0], s[1], s[2], s[3];
    if k == 1 {
      assert NumberOf(s) == a + 256 * (b + 256 * (c + 256 * d));
    } else if k == 2 {
      assert NumberOf(s) == (a + 256 * b) + 65536 * (c + 256 * d);
    } else {
      assert NumberOf(s) == (a + 256 * (b + 256 * c)) + 16777216 * d;
    }
  }

  // ----- what memory answers -----

  /**
   A register that starts at offset `off` of page `i` and goes on to the next one: its two readings give the
   slice of the process's flat bytes, and neither ends in the middle of a page it did not start.
   */
  lemma SplitReadsFlat(P: nat, mem: seq<byte>, pages: seq<Page>, i: nat, off: nat)
    requires Mapped(P, mem, pages) && P >= 4 && off < P && PaginaDividida(i * P + off, P) == 1
    requires i * P + off + 4 <= |Flat(P, mem, pages)|
    ensures i + 1 < |pages| && 1 <= FirstPart(i * P + off, P) <= 3
    ensures var la, flat := i * P + off, Flat(P, mem, pages);
            var k: nat := FirstPart(la, P);
            && InMemory(P, mem, pages[i].frame) && InMemory(P, mem, pages[i + 1].frame)
            && ReadAt(P, mem, pages, pages[i].frame, off, k) == Done(flat[la..la + k])
            && ReadAt(P, mem, pages, pages[i + 1].frame, 0, 4 - k) == Done(flat[la + k..la + 4])
  {
    hide ReadAt, FrameBytes, Flat, Mapped, PaginaDividida, FirstPart;
    SplitPlace(P, i, off, |pages|);
    ReadTwo(P, mem, pages, i * P + off, i, off, FirstPart(i * P + off, P));
  }

  lemma ReadTwo(P: nat, mem: seq<byte>, pages: seq<Page>, la: nat, i: nat, off: nat, k: nat)
    requires Mapped(P, mem, pages) && la + 4 <= |Flat(P, mem, pages)| && i + 1 < |pages|
    requires 1 <= k <= 3 && off + k == P && la == i * P + off && (i + 1) * P == la + k
    ensures var flat := Flat(P, mem, pages);
            && InMemory(P, mem, pages[i].frame) && InMemory(P, mem, pages[i + 1].frame)
            && ReadAt(P, mem, pages, pages[i].frame, off, k) == Done(flat[la..la + k])
            && ReadAt(P, mem, pages, pages[i + 1].frame, 0, 4 - k) == Done(flat[la + k..la + 4])
  {
    hide ReadAt, FrameBytes, Flat, Mapped;
    ReadIsFlat(P, mem, pages, i, off, k);
    ReadIsFlat(P, mem, pages, i + 1, 0, 4 - k);
  }

  lemma SplitPlace(P: nat, i: nat, off: nat, count: nat)
    requires P >= 4 && off < P && PaginaDividida(i * P + off, P) == 1 && i * P + off + 4 <= count * P
    ensures var k := FirstPart(i * P + off, P);
            i + 1 < count && 1 <= k <= 3 && off + k == P && (i + 1) * P == i * P + off + k
  {
    PageOf(i * P + off, P, i, off);
    SplitShape(i * P + off, P);
    InFlat(i * P + off + 3, P, count, i + 1);
    assert (i + 1) * P == i * P + P;
  }

  lemma InFlat(x: nat, P: nat, count: nat, page: nat)
    requires P > 0 && x < count * P && x / P == page
    ensures page < count
  {
    OffsetOf(x, P);
    if page >= count {
      MulMonotone(count, page, P);
    }
  }

  lemma WholeOffset(la: nat, P: nat)
    requires P > 0 && PaginaDividida(la, P) == 0
    ensures la % P + 4 <= P && la / P * P + la % P == la
  {
    OffsetOf(la, P);
  }

  /** A register on one page is read right exactly at the beginning or at the end of the page. */
  lemma WholeReadIff(P: nat, mem: seq<byte>, pages: seq<Page>, la: nat)
    requires Mapped(P, mem, pages) && PaginaDividida(la, P) == 0 && la + 4 <= |Flat(P, mem, pages)|
    ensures la / P < |pages| && InMemory(P, mem, pages[la / P].frame)
    ensures ReadAt(P, mem, pages, pages[la / P].frame, la % P, 4) == Done(Flat(P, mem, pages)[la..la + 4])
        <==> la % P == 0 || la % P + 4 == P
  {
    hide ReadAt, FrameBytes, Flat, Mapped, PaginaDividida;
    WholeOffset(la, P);
    InFlat(la, P, |pages|, la / P);
    ReadIsFlat(P, mem, pages, la / P, la % P, 4);
  }

  // ----- the number memory makes of the bytes -----

  /** cadenaANumero on a text: the first byte is the most significant. */
  function BigEndian(s: seq<byte>): (n: nat) {
    if |s| == 0 then 0
    else
      var last: int := s[|s| - 1];
      256 * BigEndian(s[..|s| - 1]) + last
  }

  /** The loop adds each byte where it belongs; up to four bytes fit. */
  method CadenaANumero(s: seq<byte>) returns (n: nat)
    requires |s| <= 4
    ensures n == BigEndian(s)
  {
    n := 0;
    var i := 0;
    while i < |s|
      invariant 0 <= i <= |s|
      invariant n == BigEndian(s[..i]) * Shift(|s| - i)
    {
      assert s[..i + 1][..i] == s[..i];
      var c: int := s[i];
      assert BigEndian(s[..i + 1]) == 256 * BigEndian(s[..i]) + c;
      Distribute(BigEndian(s[..i]), c, Shift(|s| - 1 - i));
      assert Shift(|s| - i) == 256 * Shift(|s| - 1 - i);
      n := n + c * Shift(|s| - 1 - i);
      i := i + 1;
    }
    assert s[..i] == s;
  }

  function Shift(k: nat): (n: nat) {
    if k == 0 then 1 else 256 * Shift(k - 1)
  }

  lemma Distribute(a: int, c: int, m: int)
    ensures (256 * a + c) * m == a * (256 * m) + c * m
  {
  }

  /** The bytes the other way round, filled up to four. */
  function Turned(s: seq<byte>): (r: seq<byte>)
    requires |s| <= 4
    ensures |r| == 4 && forall i :: 0 <= i < 4 ==> r[i] == if i < |s| then s[|s| - 1 - i] else 0
  {
    seq(4, i requires 0 <= i < 4 => if i < |s| then s[|s| - 1 - i] else 0)
  }

  lemma TurnedNumber(s: seq<byte>)
    requires |s| <= 4
    ensures NumberOf(Turned(s)) == BigEndian(s)
  {
    if |s| > 0 {
      BigEndianAll(s);
    }
  }

  /** The same number least significant byte first, as the CPU takes it apart. */
  lemma BigEndianBytes(s: seq<byte>)
    requires |s| <= 4
    ensures BigEndian(s) < UINT32 && BytesOf(BigEndian(s)) == Turned(s)
  {
    hide BytesOf, NumberOf, BigEndian, Turned;
    TurnedNumber(s);
    BytesRoundTrip(Turned(s));
  }

  lemma BigEndianStep(s: seq<byte>, i: nat)
    requires i < |s|
    ensures BigEndian(s[..i + 1]) == 256 * BigEndian(s[..i]) + s[i] as int
  {
    assert s[..i + 1][..i] == s[..i];
  }

  lemma BigEndianAll(s: seq<byte>)
    requires 1 <= |s| <= 4
    ensures var a: int, b: int, c: int := s[0], if |s| > 1 then s[1] else 0, if |s| > 2 then s[2] else 0;
            BigEndian(s) == if |s| == 1 then a else if |s| == 2 then b + 256 * a
                            else if |s| == 3 then c + 256 * (b + 256 * a)
                            else s[3] as int + 256 * (c + 256 * (b + 256 * a))
  {
    hide BigEndian;
    Nothing(s);
    BigEndianStep(s, 0);
    if |s| > 1 { BigEndianStep(s, 1); }
    if |s| > 2 { BigEndianStep(s, 2); }
    if |s| > 3 { BigEndianStep(s, 3); }
    assert s[..|s|] == s;
  }

  lemma Nothing(s: seq<byte>)
    ensures BigEndian(s[..0]) == 0
  {
  }

  /** Memory sends the number of the text it read, which ends at the first zero byte. */
  function Answer(b: seq<byte>): (v: u32)
    requires |b| <= 4
  {
    BigEndianBytes(b[..FirstZero(b)]);
    BigEndian(b[..FirstZero(b)])
  }

  /** The register after two readings of `k` and `4 - k` bytes. */
  function SplitValue(b: seq<byte>, k: nat): (v: u32)
    requires |b| == 4 && 1 <= k <= 3
  {
    Reconstructed(Answer(b[..k]), Answer(b[k..]), k)
  }

  lemma AnswerBytes(b: seq<byte>)
    requires |b| <= 4
    ensures BytesOf(Answer(b)) == Turned(b[..FirstZero(b)])
  {
    hide BytesOf;
    BigEndianBytes(b[..FirstZero(b)]);
  }

  /** Bytes repeat with a period. */
  predicate Repeats(s: seq<byte>, period: nat) {
    forall i :: 0 <= i < |s| - period ==> s[i + period] == s[i]
  }

  /**
   Memory makes the first byte the most significant and stops at a zero; the CPU joins the parts with the first
   one least significant. A register read in two pieces gets the value it gets in one exactly when the text ends
   with the first piece, or goes on and repeats, or ended before and the second piece is empty too.
   */
  lemma SplitValueIff(b: seq<byte>, k: nat)
    requires |b| == 4 && 1 <= k <= 3
    ensures var z := FirstZero(b);
            SplitValue(b, k) == Answer(b)
            <==> if z < k then b[k] == 0 else Repeats(b[..z], k) && Repeats(b[..z], z - k)
  {
    hide Turned, SplitValue, Answer, FirstZero, Repeats;
    SplitBytes(b, k);
    TurnedIff(b, k, FirstZero(b), FirstZero(b[..k]), FirstZero(b[k..]));
  }

  lemma SplitBytes(b: seq<byte>, k: nat)
    requires |b| == 4 && 1 <= k <= 3
    ensures var first, second := b[..k], b[k..];
            var whole := Turned(b[..FirstZero(b)]);
            SplitValue(b, k) == Answer(b)
            <==> Turned(first[..FirstZero(first)])[..k] == whole[..k]
                 && Turned(second[..FirstZero(second)])[..4 - k] == whole[k..]
  {
    hide BytesOf, NumberOf, Turned, Reconstructed, Answer, FirstZero;
    var first, second := b[..k], b[k..];
    AnswerBytes(first);
    AnswerBytes(second);
    AnswerBytes(b);
    ReconstructedIff(Answer(first), Answer(second), k, Answer(b));
  }

  lemma TurnedIff(b: seq<byte>, k: nat, z: nat, first: nat, second: nat)
    requires |b| == 4 && 1 <= k <= 3
    requires z == FirstZero(b) && first == FirstZero(b[..k]) && second == FirstZero(b[k..])
    ensures var whole := Turned(b[..z]);
            Turned(b[..k][..first])[..k] == whole[..k] && Turned(b[k..][..second])[..4 - k] == whole[k..]
            <==> if z < k then b[k] == 0 else Repeats(b[..z], k) && Repeats(b[..z], z - k)
  {
    hide Turned, FirstZero, Repeats;
    FirstPiece(b, k, z, first);
    if z < k {
      ShortText(b, k, z, second);
    } else {
      SecondZero(b, k, z, second);
      LongText(b, k, z);
    }
  }

  lemma LongText(b: seq<byte>, k: nat, z: nat)
    requires 1 <= k <= z <= |b| == 4
    ensures Turned(b[..k])[..k] == Turned(b[..z])[..k] <==> Repeats(b[..z], z - k)
    ensures Turned(b[k..z])[..4 - k] == Turned(b[..z])[k..] <==> Repeats(b[..z], k)
  {
    hide Turned, Repeats;
    assert b[..z][..k] == b[..k] && b[..z][k..] == b[k..z];
    FirstAgrees(b[..k], b[..z]);
    SecondAgrees(b[k..z], b[..z], k);
  }

  lemma FirstPiece(b: seq<byte>, k: nat, z: nat, first: nat)
    requires |b| == 4 && 1 <= k <= 3 && z == FirstZero(b) && first == FirstZero(b[..k])
    ensures z < k ==> b[..k][..first] == b[..z]
    ensures z >= k ==> b[..k][..first] == b[..k] == b[..z][..k]
  {
    hide FirstZero;
    var head := b[..k];
    assert forall i :: 0 <= i < k ==> head[i] == b[i];
  }

  lemma ShortText(b: seq<byte>, k: nat, z: nat, second: nat)
    requires |b| == 4 && 1 <= k <= 3 && z < k && second == FirstZero(b[k..])
    ensures Turned(b[k..][..second])[..4 - k] == Turned(b[..z])[k..] <==> b[k] == 0
  {
    hide Turned, FirstZero;
    var t := Turned(b[k..][..second]);
    assert b[k..][0] == b[k];
    assert second > 0 ==> t[0] == b[k..][second - 1] != 0;
    assert forall i :: 0 <= i < 4 - k ==> Turned(b[..z])[k..][i] == 0;
    if second > 0 {
      assert t[..4 - k][0] != Turned(b[..z])[k..][0];
    }
  }

  lemma SecondZero(b: seq<byte>, k: nat, z: nat, second: nat)
    requires |b| == 4 && 1 <= k <= z && k <= 3 && z == FirstZero(b) && second == FirstZero(b[k..])
    ensures second == z - k && b[k..][..second] == b[k..z] == b[..z][k..]
  {
    hide FirstZero;
    var tail := b[k..];
    assert forall i :: 0 <= i < |tail| ==> tail[i] == b[k + i];
  }

  /** The low bytes agree exactly when the text repeats after what follows its first piece. */
  lemma FirstAgrees(first: seq<byte>, text: seq<byte>)
    requires |first| <= |text| <= 4 && text[..|first|] == first
    ensures Turned(first)[..|first|] == Turned(text)[..|first|] <==> Repeats(text, |text| - |first|)
  {
    hide Turned;
    var k, z := |first|, |text|;
    var a, b := Turned(first)[..k], Turned(text)[..k];
    if a == b {
      forall j | 0 <= j < k
        ensures text[j + (z - k)] == text[j]
      {
        assert a[k - 1 - j] == text[j] && b[k - 1 - j] == text[z - 1 - (k - 1 - j)];
      }
    }
    if Repeats(text, z - k) {
      forall i | 0 <= i < k
        ensures a[i] == b[i]
      {
        assert a[i] == text[k - 1 - i] && b[i] == text[k - 1 - i + (z - k)];
      }
    }
  }

  /** The other bytes agree exactly when the text repeats after its first piece. */
  lemma SecondAgrees(second: seq<byte>, text: seq<byte>, k: nat)
    requires k <= |text| <= 4 && text[k..] == second
    ensures Turned(second)[..4 - k] == Turned(text)[k..] <==> Repeats(text, k)
  {
    hide Turned;
    var z := |text|;
    var a, b := Turned(second)[..4 - k], Turned(text)[k..];
    if a == b {
      forall j | 0 <= j < z - k
        ensures text[j + k] == text[j]
      {
        assert a[z - k - 1 - j] == second[j] == text[j + k] && b[z - k - 1 - j] == text[z - 1 - (z - 1 - j)];
      }
    }
    if Repeats(text, k) {
      forall i | 0 <= i < 4 - k
        ensures a[i] == b[i]
      {
        if i < z - k {
          assert a[i] == second[z - k - 1 - i] == text[z - k - 1 - i + k] && b[i] == text[z - 1 - (k + i)];
        }
      }
    }
  }
}
