/**
 The text of an IO instruction: printed by the CPU into the context of the process it gives back, read by the
 kernel word by word. Strings are the characters before the terminating zero.
 */
module IoText {
  import opened CTypes

  // ----- numbers as text -----

  predicate IsDigit(c: char) {
    '0' <= c <= '9'
  }

  /** The unsigned decimal form, %u. */
  function Decimal(n: nat): (s: string)
    ensures |s| > 0
    ensures forall i :: 0 <= i < |s| ==> IsDigit(s[i])
  {
    var digit := '0' + (n % 10) as char;
    if n < 10 then [digit] else Decimal(n / 10) + [digit]
  }

  /** The signed decimal form of the same 32 bits, %d. */
  function SignedDecimal(n: u32): (s: string) {
    if n < 0x8000_0000 then Decimal(n) else "-" + Decimal(0x1_0000_0000 - n)
  }

  /** The digits at the beginning, as a number. */
  function DigitsValue(s: string): (n: nat) {
    if |s| == 0 then 0 else 10 * DigitsValue(s[..|s| - 1]) + (s[|s| - 1] as int - '0' as int) % 10
  }

  /** How many characters strtol takes: a sign counts only before a digit. */
  function DigitsRun(s: string): (n: nat)
    ensures n <= |s|
  {
    if |s| == 0 || !IsDigit(s[0]) then 0 else 1 + DigitsRun(s[1..])
  }

  function Clamp(n: int): (r: int)
    ensures -0x8000_0000_0000_0000 <= r <= 0x7FFF_FFFF_FFFF_FFFF
  {
    if n > 0x7FFF_FFFF_FFFF_FFFF then 0x7FFF_FFFF_FFFF_FFFF
    else if n < -0x8000_0000_0000_0000 then -0x8000_0000_0000_0000
    else n
  }

  /** getValue: the number a whole word spells, or 0. */
  function GetValue(s: string): (v: int)
    ensures -0x8000_0000 <= v < 0x8000_0000
  {
    if |s| == 0 then 0
    else if s[0] == '-' then
      if |s| > 1 && DigitsRun(s[1..]) == |s| - 1 then Narrow(Clamp(0 - DigitsValue(s[1..]) as int)) else 0
    else if IsDigit(s[0]) then
      if DigitsRun(s) == |s| then Narrow(Clamp(DigitsValue(s))) else 0
    else 0
  }

  /** A signed value stored in an unsigned variable. */
  function Unsigned(v: int): (n: u32) {
    v % 0x1_0000_0000
  }

  lemma {:induction false} DecimalValue(n: nat)
    ensures DigitsValue(Decimal(n)) == n
  {
    var s := Decimal(n);
    var c := '0' + (n % 10) as char;
    assert c as int - '0' as int == n % 10;
    if n < 10 {
      assert s == [c] && s[..0] == [];
    } else {
      DecimalValue(n / 10);
      assert s[..|s| - 1] == Decimal(n / 10) && s[|s| - 1] == c;
    }
  }

  /** No digit too many: only the number 0 begins with a zero. */
  lemma {:induction false} DecimalFirst(n: nat)
    ensures Decimal(n)[0] == '0' <==> n == 0
  {
    if n >= 10 {
      DecimalFirst(n / 10);
    }
  }

  lemma {:induction false} AllDigitsRun(s: string)
    requires forall i :: 0 <= i < |s| ==> IsDigit(s[i])
    ensures DigitsRun(s) == |s|
  {
    if |s| > 0 {
      AllDigitsRun(s[1..]);
    }
  }

  lemma SpelledValue(s: string)
    requires |s| > 0 && forall i :: 0 <= i < |s| ==> IsDigit(s[i])
    ensures GetValue(s) == Narrow(Clamp(DigitsValue(s)))
    ensures GetValue("-" + s) == Narrow(Clamp(0 - DigitsValue(s) as int))
  {
    hide DigitsValue, Narrow, Clamp, DigitsRun;
    AllDigitsRun(s);
    assert IsDigit(s[0]) && s[0] != '-';
    var t := "-" + s;
    assert t[0] == '-' && t[1..] == s;
  }

  /** A word that is no number: neither digits nor a minus sign and digits. */
  predicate NoNumber(s: string) {
    || s == ""
    || (s[0] != '-' && exists i :: 0 <= i < |s| && !IsDigit(s[i]))
    || (s[0] == '-' && (|s| == 1 || exists i :: 1 <= i < |s| && !IsDigit(s[i])))
  }

  lemma {:induction false} DigitsRunAll(s: string)
    requires DigitsRun(s) == |s|
    ensures forall i :: 0 <= i < |s| ==> IsDigit(s[i])
  {
    if |s| > 0 {
      DigitsRunAll(s[1..]);
      assert forall i :: 1 <= i < |s| ==> s[i] == s[1..][i - 1];
    }
  }

  /** Such a word reads as 0. */
  lemma NoNumberIsZero(s: string)
    requires NoNumber(s)
    ensures GetValue(s) == 0
  {
    hide DigitsValue, Narrow, Clamp, DigitsRun;
    if s != "" && s[0] == '-' && DigitsRun(s[1..]) == |s| - 1 {
      DigitsRunAll(s[1..]);
      assert forall i :: 1 <= i < |s| ==> s[i] == s[1..][i - 1];
    } else if s != "" && DigitsRun(s) == |s| {
      DigitsRunAll(s);
    }
  }

  lemma NarrowUnsigned(n: int)
    requires -0x8000_0000 <= n < 0x1_0000_0000
    ensures Unsigned(Narrow(Clamp(n))) == if n < 0 then n + 0x1_0000_0000 else n
  {
  }

  /** Every 32-bit number printed either way is read back. */
  lemma NumberRoundTrip(n: u32)
    ensures Unsigned(GetValue(Decimal(n))) == n && Unsigned(GetValue(SignedDecimal(n))) == n
  {
    hide DigitsValue, Decimal, GetValue, Unsigned, Narrow, Clamp;
    DecimalValue(n);
    SpelledValue(Decimal(n));
    NarrowUnsigned(n);
    if n >= 0x8000_0000 {
      var m: nat := 0x1_0000_0000 - n;
      DecimalValue(m);
      SpelledValue(Decimal(m));
      NarrowUnsigned(0 - m);
    }
  }

  // ----- words -----

  predicate Ends(c: char) {
    c == ' ' || c == '\n' || c == '\0'
  }

  /** No character that ends a word. */
  predicate BlankFree(w: string) {
    forall i :: 0 <= i < |w| ==> !Ends(w[i])
  }

  /** getNextWord: the word from an offset on, and the offset after the character that ended it. */
  function NextWord(text: string, offset: nat): (r: (string, nat))
    requires offset <= |text|
    ensures r.1 == offset + |r.0| + 1
    decreases |text| - offset
  {
    if offset == |text| || Ends(text[offset]) then ("", offset + 1)
    else
      var r := NextWord(text, offset + 1);
      ([text[offset]] + r.0, r.1)
  }

  /** The character by character copy of getNextWord. */
  method GetNextWord(text: string, offset: nat) returns (word: string, next: nat)
    requires offset <= |text|
    ensures (word, next) == NextWord(text, offset)
  {
    word, next := "", offset;
    while next < |text| && !Ends(text[next])
      invariant offset <= next <= |text|
      invariant word + NextWord(text, next).0 == NextWord(text, offset).0
      invariant next - offset == |word|
      decreases |text| - next
    {
      assert word + ([text[next]] + NextWord(text, next + 1).0) == word + [text[next]] + NextWord(text, next + 1).0;
      word := word + [text[next]];
      next := next + 1;
    }
    assert word + NextWord(text, next).0 == word;
    next := next + 1;
  }

  /** A word is read exactly when it stands at the offset, free of blanks, with a blank or the end after it. */
  lemma {:induction false} NextWordIff(text: string, offset: nat, w: string)
    requires offset <= |text|
    ensures NextWord(text, offset).0 == w
        <==> BlankFree(w) && offset + |w| <= |text| && text[offset..offset + |w|] == w
             && (offset + |w| == |text| || Ends(text[offset + |w|]))
    decreases |text| - offset
  {
    if offset == |text| || Ends(text[offset]) {
      if |w| > 0 && offset + |w| <= |text| {
        assert text[offset..offset + |w|][0] == text[offset];
      }
    } else if |w| > 0 {
      NextWordIff(text, offset + 1, w[1..]);
      assert w == [w[0]] + w[1..];
      assert BlankFree(w) <==> !Ends(w[0]) && BlankFree(w[1..]) by {
        assert forall i :: 1 <= i < |w| ==> w[i] == w[1..][i - 1];
      }
      if offset + |w| <= |text| {
        assert text[offset..offset + |w|] == [text[offset]] + text[offset + 1..offset + |w|];
      }
    }
  }

  // ----- words in a row -----

  /** Words separated by one blank. */
  function Joined(words: seq<string>): (s: string) {
    if |words| == 0 then "" else if |words| == 1 then words[0] else words[0] + " " + Joined(words[1..])
  }

  ghost predicate AllBlankFree(words: seq<string>) {
    forall i :: 0 <= i < |words| ==> BlankFree(words[i])
  }

  /** Reading `n` words from an offset on; nothing past the end. */
  function WordsFrom(text: string, offset: nat, n: nat): (words: seq<string>)
    ensures |words| <= n
    decreases n
  {
    if n == 0 || offset > |text| then []
    else
      var r := NextWord(text, offset);
      [r.0] + WordsFrom(text, r.1, n - 1)
  }

  /** A word that stands between other text and what ends it is the one read. */
  lemma WordBetween(before: string, w: string, after: string)
    requires BlankFree(w) && (after == "" || Ends(after[0]))
    ensures NextWord(before + w + after, |before|) == (w, |before| + |w| + 1)
  {
    hide NextWord, BlankFree;
    var text := before + w + after;
    assert text[|before|..|before| + |w|] == w;
    assert after != "" ==> text[|before| + |w|] == after[0];
    NextWordIff(text, |before|, w);
  }

  lemma JoinedFirst(before: string, words: seq<string>, after: string)
    requires |words| > 1
    ensures var tail := " " + Joined(words[1..]) + after;
            before + Joined(words) + after == before + words[0] + tail
            && before + words[0] + tail == before + words[0] + " " + Joined(words[1..]) + after
            && tail[0] == ' '
  {
    Regroup(before, words[0], " ", Joined(words[1..]), after);
  }

  lemma Regroup(before: string, w: string, blank: string, rest: string, after: string)
    ensures before + (w + blank + rest) + after == before + w + (blank + rest + after)
    ensures before + w + (blank + rest + after) == before + w + blank + rest + after
  {
  }

  /** Words joined by blanks are read back one by one, the empty word included, whatever follows them. */
  lemma {:induction false} WordsRoundTrip(before: string, words: seq<string>, after: string)
    requires |words| > 0 && AllBlankFree(words) && (after == "" || Ends(after[0]))
    ensures WordsFrom(before + Joined(words) + after, |before|, |words|) == words
    decreases |words|
  {
    hide NextWord, BlankFree, Ends;
    var text, w := before + Joined(words) + after, words[0];
    if |words| == 1 {
      WordBetween(before, w, after);
    } else {
      var rest := words[1..];
      JoinedFirst(before, words, after);
      EndsBlank();
      WordBetween(before, w, " " + Joined(rest) + after);
      WordsRoundTrip(before + w + " ", rest, after);
    }
  }

  lemma EndsBlank()
    ensures Ends(' ')
  {
  }

  lemma {:induction false} WordsBlankFree(text: string, offset: nat, n: nat)
    ensures AllBlankFree(WordsFrom(text, offset, n))
    decreases n
  {
    if n > 0 && offset <= |text| {
      var r := NextWord(text, offset);
      NextWordIff(text, offset, r.0);
      WordsBlankFree(text, r.1, n - 1);
    }
  }

  lemma HeadWord(text: string, offset: nat, n: nat)
    requires n > 0 && offset <= |text|
    ensures |WordsFrom(text, offset, n)| > 0 && WordsFrom(text, offset, n)[0] == NextWord(text, offset).0
  {
  }

  // ----- what the kernel reads -----

  /** What the kernel sends on to an interface. */
  datatype IoRequest =
    | GenSleep(interface: string, units: int)
    | StdinRead(interface: string, address: u32, length: u32)
    | StdoutWrite(interface: string, address: u32, length: u32)
    | FsCreate(interface: string, file: string)
    | FsDelete(interface: string, file: string)
    | FsTruncate(interface: string, file: string, length: u32)
    | FsWrite(interface: string, file: string, address: u32, length: u32, pointer: u32)
    | FsRead(interface: string, file: string, address: u32, length: u32, pointer: u32)

  function Arity(name: string): (n: nat) {
    if name == "IO_FS_CREATE" || name == "IO_FS_DELETE" || name == "IO_GEN_SLEEP" then 3
    else if name == "IO_STDIN_READ" || name == "IO_STDOUT_WRITE" || name == "IO_FS_TRUNCATE" then 4
    else 6
  }

  /** ioFunction: the first word says which words follow; no interface is asked for an unknown one. */
  function Parse(text: string): (r: Option<IoRequest>) {
    var name := NextWord(text, 0).0;
    var w := WordsFrom(text, 0, Arity(name));
    if |w| != Arity(name) then None
    else if name == "IO_GEN_SLEEP" then Some(GenSleep(w[1], GetValue(w[2])))
    else if name == "IO_STDIN_READ" then
      Some(StdinRead(w[1], Unsigned(GetValue(w[2])), Unsigned(GetValue(w[3]))))
    else if name == "IO_STDOUT_WRITE" then
      Some(StdoutWrite(w[1], Unsigned(GetValue(w[2])), Unsigned(GetValue(w[3]))))
    else if name == "IO_FS_CREATE" then Some(FsCreate(w[1], w[2]))
    else if name == "IO_FS_DELETE" then Some(FsDelete(w[1], w[2]))
    else if name == "IO_FS_TRUNCATE" then Some(FsTruncate(w[1], w[2], Unsigned(GetValue(w[3]))))
    else if name == "IO_FS_WRITE" then
      Some(FsWrite(w[1], w[2], Unsigned(GetValue(w[3])), Unsigned(GetValue(w[4])), Unsigned(GetValue(w[5]))))
    else if name == "IO_FS_READ" then
      Some(FsRead(w[1], w[2], Unsigned(GetValue(w[3])), Unsigned(GetValue(w[4])), Unsigned(GetValue(w[5]))))
    else None
  }

  /** The first word and the words after it, read from words joined by blanks and whatever follows them. */
  lemma ReadsJoined(words: seq<string>, after: string)
    requires |words| > 0 && AllBlankFree(words) && (after == "" || Ends(after[0]))
    ensures var text := Joined(words) + after;
            NextWord(text, 0).0 == words[0] && WordsFrom(text, 0, |words|) == words
  {
    hide NextWord, WordsFrom, Joined;
    var text := Joined(words) + after;
    WordsRoundTrip("", words, after);
    assert "" + Joined(words) + after == text;
    HeadWord(text, 0, |words|);
  }

  // ----- what the CPU prints -----

  /** The requests whose text is printed from fields: %d for the terminal interfaces, %u for the file system. */
  predicate IsPrinted(r: IoRequest) {
    !r.GenSleep? && !r.FsCreate? && !r.FsDelete?
  }

  function Printed(r: IoRequest): (words: seq<string>)
    requires IsPrinted(r)
  {
    match r
    case StdinRead(i, a, n) => ["IO_STDIN_READ", i, SignedDecimal(a), SignedDecimal(n)]
    case StdoutWrite(i, a, n) => ["IO_STDOUT_WRITE", i, SignedDecimal(a), SignedDecimal(n)]
    case FsTruncate(i, f, n) => ["IO_FS_TRUNCATE", i, f, Decimal(n)]
    case FsWrite(i, f, a, n, p) => ["IO_FS_WRITE", i, f, Decimal(a), Decimal(n), Decimal(p)]
    case FsRead(i, f, a, n, p) => ["IO_FS_READ", i, f, Decimal(a), Decimal(n), Decimal(p)]
  }

  function Format(r: IoRequest): (text: string)
    requires IsPrinted(r)
  {
    Joined(Printed(r))
  }

  /** The texts: the name of the instruction and its words in order, one blank between them. */
  lemma FormatIs(i: string, f: string, a: u32, n: u32, p: u32)
    ensures Format(StdinRead(i, a, n)) == "IO_STDIN_READ" + " " + i + " " + SignedDecimal(a) + " " + SignedDecimal(n)
    ensures Format(StdoutWrite(i, a, n)) == "IO_STDOUT_WRITE" + " " + i + " " + SignedDecimal(a) + " " + SignedDecimal(n)
    ensures Format(FsTruncate(i, f, n)) == "IO_FS_TRUNCATE" + " " + i + " " + f + " " + Decimal(n)
    ensures Format(FsWrite(i, f, a, n, p))
         == "IO_FS_WRITE" + " " + i + " " + f + " " + Decimal(a) + " " + Decimal(n) + " " + Decimal(p)
    ensures Format(FsRead(i, f, a, n, p))
         == "IO_FS_READ" + " " + i + " " + f + " " + Decimal(a) + " " + Decimal(n) + " " + Decimal(p)
  {
    hide Decimal, SignedDecimal, Joined;
    JoinedFour("IO_STDIN_READ", i, SignedDecimal(a), SignedDecimal(n));
    JoinedFour("IO_STDOUT_WRITE", i, SignedDecimal(a), SignedDecimal(n));
    JoinedFour("IO_FS_TRUNCATE", i, f, Decimal(n));
    JoinedSix("IO_FS_WRITE", i, f, Decimal(a), Decimal(n), Decimal(p));
    JoinedSix("IO_FS_READ", i, f, Decimal(a), Decimal(n), Decimal(p));
  }

  lemma JoinedFour(a: string, b: string, c: string, d: string)
    ensures Joined([a, b, c, d]) == a + " " + b + " " + c + " " + d
  {
    hide Joined;
    JoinedOne([c, d]);
    JoinedOne([b, c, d]);
    JoinedOne([a, b, c, d]);
    JoinedLast(d);
    assert [a, b, c, d][1..] == [b, c, d] && [b, c, d][1..] == [c, d] && [c, d][1..] == [d];
    assert a + " " + (b + " " + (c + " " + d)) == a + " " + b + " " + c + " " + d;
  }

  lemma JoinedSix(a: string, b: string, c: string, d: string, e: string, f: string)
    ensures Joined([a, b, c, d, e, f]) == a + " " + b + " " + c + " " + d + " " + e + " " + f
  {
    hide Joined;
    JoinedFour(c, d, e, f);
    JoinedOne([b, c, d, e, f]);
    JoinedOne([a, b, c, d, e, f]);
    assert [a, b, c, d, e, f][1..] == [b, c, d, e, f] && [b, c, d, e, f][1..] == [c, d, e, f];
    var rest := c + " " + d + " " + e + " " + f;
    assert a + " " + (b + " " + rest) == a + " " + b + " " + c + " " + d + " " + e + " " + f;
  }

  lemma JoinedLast(word: string)
    ensures Joined([word]) == word
  {
  }

  lemma JoinedOne(words: seq<string>)
    requires |words| > 1
    ensures Joined(words) == words[0] + " " + Joined(words[1..])
  {
  }

  ghost predicate Wordy(r: IoRequest) {
    BlankFree(r.interface)
    && match r
       case FsCreate(_, f) => BlankFree(f)
       case FsDelete(_, f) => BlankFree(f)
       case FsTruncate(_, f, _) => BlankFree(f)
       case FsWrite(_, f, _, _, _) => BlankFree(f)
       case FsRead(_, f, _, _, _) => BlankFree(f)
       case _ => true
  }

  lemma NumbersBlankFree(n: u32)
    ensures BlankFree(Decimal(n)) && BlankFree(SignedDecimal(n))
  {
  }

  lemma PrintedBlankFree(r: IoRequest)
    requires IsPrinted(r) && Wordy(r)
    ensures AllBlankFree(Printed(r)) && |Printed(r)| == Arity(Printed(r)[0])
  {
    hide Decimal, SignedDecimal;
    match r
    case StdinRead(_, a, n) => NumbersBlankFree(a); NumbersBlankFree(n);
    case StdoutWrite(_, a, n) => NumbersBlankFree(a); NumbersBlankFree(n);
    case FsTruncate(_, _, n) => NumbersBlankFree(n);
    case FsWrite(_, _, a, n, p) => NumbersBlankFree(a); NumbersBlankFree(n); NumbersBlankFree(p);
    case FsRead(_, _, a, n, p) => NumbersBlankFree(a); NumbersBlankFree(n); NumbersBlankFree(p);
  }

  lemma AtLeastFour(r: IoRequest)
    requires IsPrinted(r)
    ensures |Printed(r)| >= 4
  {
  }

  /** The kernel reads from the text what the CPU printed into it, for all blank-free words and 32-bit numbers. */
  lemma FormatRoundTrip(r: IoRequest)
    requires IsPrinted(r) && Wordy(r)
    ensures Parse(Format(r)) == Some(r)
  {
    hide Decimal, SignedDecimal, GetValue, Unsigned, WordsFrom, NextWord, Joined;
    PrintedBlankFree(r);
    AtLeastFour(r);
    ReadsJoined(Printed(r), "");
    assert Joined(Printed(r)) + "" == Format(r);
    forall n: u32
      ensures Unsigned(GetValue(Decimal(n))) == n && Unsigned(GetValue(SignedDecimal(n))) == n
    {
      NumberRoundTrip(n);
    }
  }

  /** Exactly the printed requests with blank-free words arrive as they were sent. */
  lemma FormatRoundTripIff(r: IoRequest)
    requires IsPrinted(r)
    ensures Parse(Format(r)) == Some(r) <==> Wordy(r)
  {
    hide WordsFrom, NextWord, Format, GetValue, Unsigned;
    var text := Format(r);
    if Wordy(r) {
      FormatRoundTrip(r);
    }
    WordsBlankFree(text, 0, Arity(NextWord(text, 0).0));
  }

  /** Different requests have different texts. */
  lemma FormatInjective(q: IoRequest, r: IoRequest)
    requires IsPrinted(q) && IsPrinted(r) && Wordy(q) && Wordy(r) && Format(q) == Format(r)
    ensures q == r
  {
    hide Format, Parse;
    FormatRoundTrip(q);
    FormatRoundTrip(r);
  }

  // ----- what the CPU passes on -----

  /** The text of a sleep: two words of the instruction, copied as they stand. */
  function SleepText(operation: string): (text: string)
    requires |WordsFrom(operation, 0, 3)| == 3
  {
    var w := WordsFrom(operation, 0, 3);
    Joined(["IO_GEN_SLEEP", w[1], w[2]])
  }

  /** The kernel reads the interface and the number the program gave, for every instruction. */
  lemma SleepPassedOn(operation: string)
    requires |WordsFrom(operation, 0, 3)| == 3
    ensures var w := WordsFrom(operation, 0, 3);
            Parse(SleepText(operation)) == Some(GenSleep(w[1], GetValue(w[2])))
  {
    hide WordsFrom, NextWord, GetValue, Joined;
    var w := WordsFrom(operation, 0, 3);
    WordsBlankFree(operation, 0, 3);
    var words := ["IO_GEN_SLEEP", w[1], w[2]];
    ReadsJoined(words, "");
    assert Joined(words) + "" == Joined(words);
  }

  /**
   IO_FS_CREATE and IO_FS_DELETE are passed on as the program wrote them. The kernel reads the interface and the file,
   whatever follows: the end of the line, or more words.
   */
  lemma RawPassedOn(interface: string, file: string, after: string)
    requires BlankFree(interface) && BlankFree(file) && (after == "" || Ends(after[0]))
    ensures Parse(Joined(["IO_FS_CREATE", interface, file]) + after) == Some(FsCreate(interface, file))
    ensures Parse(Joined(["IO_FS_DELETE", interface, file]) + after) == Some(FsDelete(interface, file))
  {
    hide WordsFrom, NextWord, Joined;
    ReadsJoined(["IO_FS_CREATE", interface, file], after);
    ReadsJoined(["IO_FS_DELETE", interface, file], after);
  }

  /** So a blank in a file name makes the kernel read another file. */
  lemma BlankBreaks(interface: string, a: string, b: string)
    requires BlankFree(interface) && BlankFree(a)
    ensures Parse(Joined(["IO_FS_DELETE", interface, a + " " + b])) == Some(FsDelete(interface, a))
  {
    hide Parse;
    var after := " " + b;
    assert after[0] == ' ';
    RawPassedOn(interface, a, after);
    JoinedOn(["IO_FS_DELETE", interface], a, " " + b);
    assert ["IO_FS_DELETE", interface] + [a] == ["IO_FS_DELETE", interface, a];
    assert a + (" " + b) == a + " " + b;
    assert ["IO_FS_DELETE", interface] + [a + " " + b] == ["IO_FS_DELETE", interface, a + " " + b];
  }

  lemma {:induction false} JoinedOn(words: seq<string>, a: string, after: string)
    ensures Joined(words + [a]) + after == Joined(words + [a + after])
  {
    if |words| > 0 {
      JoinedOn(words[1..], a, after);
      assert (words + [a])[1..] == words[1..] + [a];
      assert (words + [a + after])[1..] == words[1..] + [a + after];
    } else {
      assert words + [a] == [a] && words + [a + after] == [a + after];
    }
  }
}
