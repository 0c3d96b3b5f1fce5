/** The Base64 encoder and decoder as they work on buffers, and the size of the buffer they need. */
module Base64 {
  import opened Text
  import opened Base64Codec

  /** The buffer size the encoder asks for. */
  function EncodeGetRequiredLength(n: nat, pad: bool, breaks: bool): nat {
    var r := n * 4 / 3;
    var padded := if pad then r + n % 3 else r;
    var lineBreaks := padded / LINE + 1;
    var onLastLine := padded % LINE;
    var rounded := if onLastLine % 4 != 0 then padded + (4 - onLastLine % 4) else padded;
    if breaks then rounded + 2 * lineBreaks else rounded
  }

  lemma Mod76(p: nat)
    ensures p % LINE % 4 == p % 4
  {
    assert p == 76 * (p / 76) + p % 76;
    assert p % 4 == (4 * (19 * (p / 76)) + p % 76) % 4;
  }

  lemma DivThree(g: nat, left: nat)
    requires left < 3
    ensures (3 * g + left) * 4 / 3 == 4 * g + left * 4 / 3 && (3 * g + left) % 3 == left
  {
    assert (3 * g + left) * 4 == 3 * (4 * g) + left * 4;
  }

  /** Rounding up to whole groups of four, as the formula does it from the length of the last line. */
  lemma RoundUp(g: nat, extra: nat, padded: nat)
    requires extra in {0, 1, 2, 4} && padded == 4 * g + extra
    ensures (if padded % LINE % 4 != 0 then padded + (4 - padded % LINE % 4) else padded) == 4 * g + (if extra == 0 then 0 else 4)
  {
    Mod76(padded);
    assert padded % 4 == extra % 4;
  }

  /** The formula in closed form: whole groups of four characters, and a line break for each line begun. */
  lemma RequiredLengthIs(g: nat, left: nat, pad: bool, breaks: bool) returns (padded: nat)
    requires left < 3
    ensures padded == 4 * g + left + (if pad then left else 0)
    ensures EncodeGetRequiredLength(3 * g + left, pad, breaks) ==
            4 * g + (if left == 0 then 0 else 4) + (if breaks then 2 * (padded / LINE + 1) else 0)
  {
    var n := 3 * g + left;
    DivThree(g, left);
    padded := if pad then n * 4 / 3 + n % 3 else n * 4 / 3;
    RoundUp(g, padded - 4 * g, padded);
  }

  /** Everything the encoder ever writes, the last line break it takes back included, fits the buffer. */
  lemma WritesFit(n: nat, pad: bool, breaks: bool)
    ensures var full, left := n / 3 * 4, n % 3;
            var brk := if breaks then 2 else 0;
            && full + brk * (full / LINE + 1) <= EncodeGetRequiredLength(n, pad, breaks)
            && full + brk * (full / LINE) + (if left == 0 then 0 else 4) <= EncodeGetRequiredLength(n, pad, breaks)
  {
    hide EncodeGetRequiredLength;
    var g, left := n / 3, n % 3;
    assert n == 3 * g + left;
    var padded := RequiredLengthIs(g, left, pad, breaks);
    assert 4 * g / LINE <= padded / LINE;
  }

  lemma EncodedLength(table: string, src: seq<Byte>, pad: bool, breaks: bool)
    requires |table| == 64
    ensures |Encoded(table, src, pad, breaks)| <= EncodeGetRequiredLength(|src|, pad, breaks)
  {
    WritesFit(|src|, pad, breaks);
  }

  // ---- Line length ----

  predicate IsBreak(c: char) {
    c == '\r' || c == '\n'
  }

  predicate HasBreak(s: string, from: nat, limit: nat)
    requires from + limit < |s|
  {
    exists k :: from <= k <= from + limit && IsBreak(s[k])
  }

  /** No run of characters without a line break is longer than `limit`. */
  ghost predicate LinesWithin(s: string, limit: nat) {
    forall i: nat :: i + limit < |s| ==> HasBreak(s, i, limit)
  }

  lemma {:induction false} BreakAt(body: string, count: nat, m: nat)
    requires LINE * count <= |body| && m < count
    ensures Lines(body, count, true)[78 * m + 76] == '\r' && Lines(body, count, true)[78 * m + 77] == '\n'
    decreases count
  {
    if m < count - 1 {
      BreakAt(body, count - 1, m);
    }
  }

  /** From every position of the full lines a break is at most 76 characters away. */
  ghost predicate BreakNear(lines: string, i: nat) {
    exists k :: i <= k <= i + LINE && k < |lines| && IsBreak(lines[k])
  }

  lemma LineBreakNear(body: string, count: nat, i: nat)
    requires LINE * count <= |body| && i < 78 * count
    ensures BreakNear(Lines(body, count, true), i)
  {
    var m, r := i / 78, i % 78;
    var lines := Lines(body, count, true);
    BreakAt(body, count, m);
    assert i == 78 * m + r;
    var k := if r <= 76 then 78 * m + 76 else 78 * m + 77;
    assert i <= k <= i + LINE && k < |lines| && IsBreak(lines[k]);
  }

  lemma ShortRest(lines: string, rest: string)
    requires |rest| <= LINE && forall i: nat :: i < |lines| ==> BreakNear(lines, i)
    ensures LinesWithin(lines + rest, LINE)
  {
    var s := lines + rest;
    forall i: nat | i + LINE < |s| ensures HasBreak(s, i, LINE) {
      assert BreakNear(lines, i);
      var k :| i <= k <= i + LINE && k < |lines| && IsBreak(lines[k]);
      assert s[k] == lines[k];
    }
  }

  lemma LastLineShort(n: nat)
    requires n % 4 == 0
    ensures n - LINE * (n / LINE) <= 72
  {
    Mod76(n);
  }

  lemma TailShort(table: string, src: seq<Byte>, pad: bool)
    requires |table| == 64
    ensures |Tail(table, src, pad)| <= 4
  {
  }

  /** With line breaks on, no line is longer than 76 characters (section 6.8 of RFC 2045). */
  lemma EncodedLinesAreShort(table: string, src: seq<Byte>, pad: bool)
    requires |table| == 64
    ensures LinesWithin(Encoded(table, src, pad, true), LINE)
  {
    hide Lines, Body, Tail, BreakNear, LinesWithin;
    var body := Body(table, src, |src| / 3);
    var count := |body| / LINE;
    var lines := Lines(body, count, true);
    var last, tail := body[LINE * count..], Tail(table, src, pad);
    TailShort(table, src, pad);
    LastLineShort(4 * (|src| / 3));
    forall i: nat | i < |lines| ensures BreakNear(lines, i) {
      LineBreakNear(body, count, i);
    }
    ShortRest(lines, last + tail);
    Regroup(lines, last, tail);
  }

  // ---- The encoder ----

  /** The word after n of its three bytes have been shifted in. */
  function Gathered(a: Byte, b: Byte, c: Byte, n: nat): bv32
    requires n <= 3
  {
    match n
    case 0 => 0
    case 1 => (a as bv32) << 8
    case 2 => ((a as bv32) << 16) | ((b as bv32) << 8)
    case _ => Word(a, b, c)
  }

  function PushByte(w: bv32, b: Byte): bv32 {
    (w | (b as bv32)) << 8
  }

  lemma GatherFirst(a: Byte, b: Byte, c: Byte)
    ensures PushByte(Gathered(a, b, c, 0), a) == Gathered(a, b, c, 1)
  {
  }

  lemma GatherSecond(a: Byte, b: Byte, c: Byte)
    ensures PushByte(Gathered(a, b, c, 1), b) == Gathered(a, b, c, 2)
  {
  }

  lemma GatherThird(a: Byte, b: Byte, c: Byte)
    ensures PushByte(Gathered(a, b, c, 2), c) == Gathered(a, b, c, 3)
  {
  }

  lemma GatherStep(a: Byte, b: Byte, c: Byte, n: nat)
    requires n < 3
    ensures PushByte(Gathered(a, b, c, n), if n == 0 then a else if n == 1 then b else c) == Gathered(a, b, c, n + 1)
  {
    hide Gathered, PushByte;
    GatherFirst(a, b, c);
    GatherSecond(a, b, c);
    GatherThird(a, b, c);
  }

  lemma PushZero(w: bv32)
    ensures PushByte(w, 0) == w << 8
  {
    assert w | (0 as bv32) == w;
  }

  /** One round of the gathering loop: the byte, if there is one, and the shift. */
  method ShiftIn(word: bv32, present: bool, b: Byte) returns (w: bv32)
    ensures present ==> w == PushByte(word, b)
    ensures !present ==> w == PushByte(word, 0)
  {
    if present {
      w := word | (b as bv32);
      w := w << 8;
    } else {
      hide PushByte;
      PushZero(word);
      w := word << 8;
    }
  }

  /** Shifts three bytes into a word; from the `count`-th on they are zero. */
  method GatherWord(src: seq<Byte>, from: nat, count: nat) returns (w: bv32)
    requires count <= 3 && from + count <= |src| && (count < 3 ==> from + count == |src|)
    ensures w == WordAt(src, from)
  {
    hide Word, Gathered, PushByte;
    w := 0;
    ghost var a, b, c := ByteAt(src, from), ByteAt(src, from + 1), ByteAt(src, from + 2);
    assert Gathered(a, b, c, 0) == 0 && Gathered(a, b, c, 3) == Word(a, b, c) by { GatheredEnds(a, b, c); }
    for n := 0 to 3
      invariant w == Gathered(a, b, c, n)
    {
      GatherStep(a, b, c, n);
      w := ShiftIn(w, n < count, ByteAt(src, from + n));
    }
  }

  lemma GatheredEnds(a: Byte, b: Byte, c: Byte)
    ensures Gathered(a, b, c, 0) == 0 && Gathered(a, b, c, 3) == Word(a, b, c)
  {
  }

  /** The first k shifts by six bits. */
  function Shifted(w: bv32, k: nat): bv32
    requires k <= 4
  {
    match k
    case 0 => w
    case 1 => w << 6
    case 2 => w << 12
    case 3 => w << 18
    case _ => w << 24
  }

  lemma ShiftFacts(w: bv32)
    ensures (w << 6) << 6 == w << 12 && (w << 12) << 6 == w << 18 && (w << 18) << 6 == w << 24
  {
  }

  lemma ShiftedStep(w: bv32, k: nat)
    requires k < 4
    ensures Shifted(w, k) << 6 == Shifted(w, k + 1)
  {
    ShiftFacts(w);
    match k
    case 0 =>
    case 1 =>
    case 2 =>
    case _ =>
  }

  lemma ShiftedDigit(w: bv32, k: nat)
    requires k < 4
    ensures (Shifted(w, k) >> 26) as bv6 == DigitOf(w, k)
  {
    match k
    case 0 =>
    case 1 =>
    case 2 =>
    case _ =>
  }

  /** Writes the first `count` characters of a word. */
  method WriteWord(table: string, word: bv32, count: nat, dest: array<char>, at: nat)
    requires |table| == 64 && count <= 4 && at + count <= dest.Length
    modifies dest
    ensures dest[..at + count] == old(dest[..at]) + Chars(table, word, count)
  {
    hide Shifted, DigitOf;
    var w := word;
    assert Shifted(word, 0) == word by { ShiftedZero(word); }
    ghost var chars, front := Chars(table, word, count), dest[..at];
    for k := 0 to count
      invariant w == Shifted(word, k)
      invariant dest[..at + k] == front + chars[..k]
    {
      ShiftedStep(word, k);
      ShiftedDigit(word, k);
      var b := (w >> 26) as bv6;
      WriteChar(dest, at + k, table[b as int]);
      OneMoreChar(front, chars, k);
      w := w << 6;
    }
    assert chars[..count] == chars;
  }

  method WriteChar(dest: array<char>, at: nat, c: char)
    requires at < dest.Length
    modifies dest
    ensures dest[..at + 1] == old(dest[..at]) + [c]
  {
    dest[at] := c;
  }

  lemma OneMoreChar(front: string, chars: string, k: nat)
    requires k < |chars|
    ensures front + chars[..k] + [chars[k]] == front + chars[..k + 1]
  {
  }

  lemma ShiftedZero(w: bv32)
    ensures Shifted(w, 0) == w
  {
  }

  lemma {:induction false} BodyGroup(table: string, src: seq<Byte>, groups: nat, g: nat)
    requires |table| == 64 && 3 * groups <= |src| && g < groups
    ensures Body(table, src, groups)[4 * g..4 * g + 4] == Chars(table, WordAt(src, 3 * g), 4)
    decreases groups
  {
    hide Chars, WordAt;
    var body := Body(table, src, groups);
    var last := Chars(table, WordAt(src, 3 * (groups - 1)), 4);
    assert body == Body(table, src, groups - 1) + last;
    if g < groups - 1 {
      BodyGroup(table, src, groups - 1, g);
      assert body[4 * g..4 * g + 4] == Body(table, src, groups - 1)[4 * g..4 * g + 4];
    } else {
      assert body[4 * g..4 * g + 4] == last;
    }
  }

  lemma Slices<T>(s: seq<T>, a: nat, b: nat, c: nat)
    requires a <= b <= c <= |s|
    ensures s[a..b] + s[b..c] == s[a..c]
  {
  }

  lemma Lengthened(front: string, s: string, a: nat, b: nat, c: nat)
    requires a <= b <= c <= |s|
    ensures front + s[a..b] + s[b..c] == front + s[a..c]
  {
    Slices(s, a, b, c);
    Regroup(front, s[a..b], s[b..c]);
  }

  /** One line: `count` complete groups from group `first` on. */
  method WriteGroups(table: string, src: seq<Byte>, first: nat, count: nat, dest: array<char>, at: nat)
    requires |table| == 64 && 3 * (first + count) <= |src| && at + 4 * count <= dest.Length
    modifies dest
    ensures dest[..at + 4 * count] == old(dest[..at]) + Body(table, src, |src| / 3)[4 * first..4 * (first + count)]
  {
    hide Chars, WordAt, Body;
    ghost var body, front := Body(table, src, |src| / 3), dest[..at];
    assert front + body[4 * first..4 * first] == front;
    for j := 0 to count
      invariant dest[..at + 4 * j] == front + body[4 * first..4 * first + 4 * j]
    {
      var w := GatherWord(src, 3 * (first + j), 3);
      BodyGroup(table, src, |src| / 3, first + j);
      WriteWord(table, w, 4, dest, at + 4 * j);
      Lengthened(front, body, 4 * first, 4 * first + 4 * j, 4 * first + 4 * j + 4);
    }
  }

  /** What has been written after i rounds of the line loop. */
  ghost function Progress(body: string, i: nat, breaks: bool): string
  {
    var count := |body| / LINE;
    if i <= count then Lines(body, i, breaks)
    else Lines(body, count, breaks) + body[LINE * count..] + (if breaks then "\r\n" else "")
  }

  lemma ProgressNext(body: string, count: nat, i: nat, breaks: bool)
    requires FullLines(|body|, count) && i <= count
    ensures var end := if i < count then LINE * (i + 1) else |body|;
            Progress(body, i + 1, breaks) == Progress(body, i, breaks) + body[LINE * i..end] + (if breaks then "\r\n" else "")
  {
  }

  method WriteBreak(dest: array<char>, at: nat)
    requires at + 2 <= dest.Length
    modifies dest
    ensures dest[..at + 2] == old(dest[..at]) + "\r\n"
  {
    dest[at] := '\r';
    dest[at + 1] := '\n';
  }

  /** One round of the line loop: `count` groups, and a line break if asked for. */
  method WriteLine(table: string, src: seq<Byte>, first: nat, count: nat, dest: array<char>, at: nat, breaks: bool)
    returns (written: nat)
    requires |table| == 64 && 3 * (first + count) <= |src|
    requires at + 4 * count + (if breaks then 2 else 0) <= dest.Length
    modifies dest
    ensures written == at + 4 * count + (if breaks then 2 else 0)
    ensures dest[..written] == old(dest[..at]) + Body(table, src, |src| / 3)[4 * first..4 * (first + count)] +
                               (if breaks then "\r\n" else "")
  {
    hide Body;
    WriteGroups(table, src, first, count, dest, at);
    written := at + count * 4;
    ghost var text := dest[..written];
    if breaks {
      WriteBreak(dest, written);
      written := written + 2;
    } else {
      assert text + "" == text;
    }
  }

  /** Where line i starts in the output. */
  function LineStart(i: nat, breaks: bool): nat {
    if breaks then 78 * i else 76 * i
  }

  predicate FullLines(len1: nat, len2: nat) {
    len2 == len1 / LINE
  }

  /** The number of groups that round i of the line loop writes. */
  function GroupsInLine(len1: nat, i: nat): nat {
    if i == len1 / LINE then len1 % LINE / 4 else 19
  }

  /** The line loop: all complete groups, a line break after each round; the loop ends one break too far. */
  method WriteLines(table: string, src: seq<Byte>, dest: array<char>, breaks: bool) returns (written: nat)
    requires |table| == 64 && BufferFits(|src| / 3 * 4, breaks, dest.Length)
    modifies dest
    ensures written <= dest.Length
    ensures dest[..written] == Progress(Body(table, src, |src| / 3), |src| / 3 * 4 / LINE + 1, breaks)
  {
    var len1 := |src| / 3 * 4;
    var len2 := len1 / LINE;
    assert FullLines(len1, len2);
    hide Body, Progress, BufferFits, GroupsInLine, LineStart;
    GroupsInLineIs(len1, len2);
    LineStartIs(breaks);
    ProgressEnds(Body(table, src, |src| / 3), breaks);
    written := LineLoop(table, src, dest, breaks, len1, len2, len1 % LINE / 4);
  }

  method LineLoop(table: string, src: seq<Byte>, dest: array<char>, breaks: bool, len1: nat, len2: nat, last: nat)
    returns (written: nat)
    requires |table| == 64 && 3 * len1 <= 4 * |src| && BufferFits(len1, breaks, dest.Length)
    requires len1 == |Body(table, src, |src| / 3)|
    requires FullLines(len1, len2) && last == GroupsInLine(len1, len2)
    requires LineStart(0, breaks) == 0 && Progress(Body(table, src, |src| / 3), 0, breaks) == ""
    modifies dest
    ensures written <= dest.Length && dest[..written] == Progress(Body(table, src, |src| / 3), len2 + 1, breaks)
  {
    hide Body, Progress, BufferFits, GroupsInLine, LineStart, FullLines;
    ghost var body := Body(table, src, |src| / 3);
    var len3 := 19;
    written := 0;
    for i := 0 to len2 + 1
      invariant i <= len2 ==> written == LineStart(i, breaks) && len3 == 19
      invariant written <= dest.Length && dest[..written] == Progress(body, i, breaks)
    {
      if i == len2 { len3 := last; }
      ProgressNext(body, len2, i, breaks);
      RoundFits(len1, len2, i, len3, breaks, dest.Length);
      written := WriteLine(table, src, 19 * i, len3, dest, written, breaks);
    }
  }

  lemma LineStartIs(breaks: bool)
    ensures LineStart(0, breaks) == 0
  {
  }

  lemma GroupsInLineIs(len1: nat, i: nat)
    ensures i == len1 / LINE ==> GroupsInLine(len1, i) == len1 % LINE / 4
  {
  }

  /** Room for `len1` characters and one line break more than there are full lines. */
  ghost predicate BufferFits(len1: nat, breaks: bool, room: nat) {
    len1 + (if breaks then 2 else 0) * (len1 / LINE + 1) <= room
  }

  lemma ProgressEnds(body: string, breaks: bool)
    ensures Progress(body, 0, breaks) == ""
    ensures var count := |body| / LINE;
            Progress(body, count + 1, breaks) == Lines(body, count, breaks) + body[LINE * count..] + (if breaks then "\r\n" else "")
  {
  }

  /** A round of the line loop stays inside the buffer. */
  lemma RoundFits(len1: nat, len2: nat, i: nat, len3: nat, breaks: bool, room: nat)
    requires FullLines(len1, len2) && i <= len2 && len1 % 4 == 0 && BufferFits(len1, breaks, room)
    requires len3 == if i == len2 then GroupsInLine(len1, len2) else 19
    ensures var end := LineStart(i, breaks) + 4 * len3 + (if breaks then 2 else 0);
            && end <= room && (i < len2 ==> end == LineStart(i + 1, breaks))
            && 4 * (19 * i) == LINE * i
            && 4 * (19 * i + len3) == (if i < len2 then LINE * (i + 1) else len1) <= len1
  {
    assert len1 == 76 * len2 + len1 % 76;
    Mod76(len1);
  }

  /** The padding after the last, incomplete group. */
  method WritePadding(dest: array<char>, at: nat, count: nat)
    requires at + count <= dest.Length
    modifies dest
    ensures dest[..at + count] == old(dest[..at]) + seq(count, _ => '=')
  {
    for j := 0 to count
      invariant dest[..at + j] == old(dest[..at]) + seq(j, _ => '=')
    {
      ghost var before := dest[..at + j];
      dest[at + j] := '=';
      assert dest[..at + j + 1] == before + ['='];
    }
  }

  /** The characters of the incomplete group at the end of the input. */
  method WriteTail(table: string, src: seq<Byte>, dest: array<char>, at: nat, pad: bool) returns (written: nat)
    requires |table| == 64 && at + (if |src| % 3 == 0 then 0 else 4) <= dest.Length
    modifies dest
    ensures written <= dest.Length && dest[..written] == old(dest[..at]) + Tail(table, src, pad)
  {
    hide Chars, WordAt;
    written := at;
    ghost var text := dest[..at];
    var left := |src| % 3;
    var len2 := if left != 0 then left + 1 else 0;
    if len2 != 0 {
      var w := GatherWord(src, |src| - left, left);
      WriteWord(table, w, len2, dest, at);
      written := written + len2;
      ghost var chars := Chars(table, w, len2);
      assert dest[..written] == text + chars;
      if pad {
        var len3 := 4 - len2;
        WritePadding(dest, written, len3);
        written := written + len3;
        assert seq(len3, _ => '=') == if left == 1 then "==" else "=";
        assert text + chars + seq(len3, _ => '=') == text + (chars + seq(len3, _ => '='));
      }
    }
    assert text + "" == text;
  }

  /**
   The encoder: whatever the flags, a buffer of the size it asks for is enough, and the encoded text
   is left at the front of the buffer.
   */
  method Encode(table: string, src: seq<Byte>, dest: array<char>, pad: bool, breaks: bool) returns (written: nat)
    requires |table| == 64 && |src| * 4 <= 0x7fff_ffff
    requires dest.Length >= EncodeGetRequiredLength(|src|, pad, breaks)
    modifies dest
    ensures written <= dest.Length && dest[..written] == Encoded(table, src, pad, breaks)
  {
    WritesFit(|src|, pad, breaks);
    ghost var body := Body(table, src, |src| / 3);
    ghost var text := Lines(body, |body| / LINE, breaks) + body[LINE * (|body| / LINE)..];
    assert BufferFits(|src| / 3 * 4, breaks, dest.Length);
    assert |text| + (if |src| % 3 == 0 then 0 else 4) <= dest.Length;
    hide EncodeGetRequiredLength, Body, Lines, Progress, Tail, BufferFits;
    written := WriteLines(table, src, dest, breaks);
    ProgressEnds(body, breaks);
    assert written == |text| + if breaks then 2 else 0;
    if written != 0 && breaks { written := written - 2; }
    assert dest[..written] == text;
    written := WriteTail(table, src, dest, written, pad);
  }

  // ---- The decoder ----

  /** The position of a character in the table, or -1. */
  method DecodeChar(table: string, ch: char) returns (k: int)
    requires |table| == 64
    ensures k == IndexFrom(table, ch, 0)
  {
    for i := 0 to 64
      invariant IndexFrom(table, ch, 0) == IndexFrom(table, ch, i)
    {
      if ch == table[i] { return i; }
    }
    return -1;
  }

  /** Up to four digits shifted in from the right. */
  function Accumulated(ds: seq<Digit>): bv32
    requires |ds| <= 4
  {
    var n := |ds|;
    FourDigits(if n == 4 then ds[0] else 0, if n >= 3 then ds[n - 3] else 0,
               if n >= 2 then ds[n - 2] else 0, if n >= 1 then ds[n - 1] else 0)
  }

  function PushDigit(w: bv32, d: Digit): bv32 {
    (w << 6) | (d as bv32)
  }

  lemma PushedDigit(a: Digit, b: Digit, c: Digit, d: Digit)
    ensures PushDigit(FourDigits(0, a, b, c), d) == FourDigits(a, b, c, d)
  {
  }

  lemma AccumulateStep(ds: seq<Digit>, d: Digit)
    requires |ds| < 4
    ensures PushDigit(Accumulated(ds), d) == Accumulated(ds + [d])
  {
    hide PushDigit, FourDigits;
    var n := |ds|;
    PushedDigit(if n >= 3 then ds[n - 3] else 0, if n >= 2 then ds[n - 2] else 0, if n >= 1 then ds[n - 1] else 0, d);
  }

  /** The word moved up to bit 23, whatever number of digits was read. */
  function Aligned(w: bv32, digits: nat): bv32
    requires digits <= 4
  {
    match digits
    case 0 => w << 24
    case 1 => w << 18
    case 2 => w << 12
    case 3 => w << 6
    case _ => w
  }

  lemma AlignOne(a: Digit)
    ensures Aligned(FourDigits(0, 0, 0, a), 1) == FourDigits(a, 0, 0, 0)
  {
  }

  lemma AlignTwo(a: Digit, b: Digit)
    ensures Aligned(FourDigits(0, 0, a, b), 2) == FourDigits(a, b, 0, 0)
  {
  }

  lemma AlignThree(a: Digit, b: Digit, c: Digit)
    ensures Aligned(FourDigits(0, a, b, c), 3) == FourDigits(a, b, c, 0)
  {
  }

  lemma AlignFour(w: bv32)
    ensures Aligned(w, 4) == w
  {
  }

  lemma AlignedIsPack(ds: seq<Digit>)
    requires 1 <= |ds| <= 4
    ensures Aligned(Accumulated(ds), |ds|) == Pack(ds)
  {
    hide Aligned, FourDigits;
    match |ds|
    case 1 => AlignOne(ds[0]);
    case 2 => AlignTwo(ds[0], ds[1]);
    case 3 => AlignThree(ds[0], ds[1], ds[2]);
    case _ => AlignFour(Accumulated(ds));
  }

  method ShiftDigitIn(word: bv32, d: Digit) returns (w: bv32)
    ensures w == PushDigit(word, d)
  {
    w := word << 6;
    w := w | (d as bv32);
  }

  lemma AccumulatedNone()
    ensures Accumulated([]) == 0
  {
  }

  /** Reads up to four digits from position `from`, skipping all other characters. */
  method ReadGroup(table: string, s: string, from: nat) returns (w: bv32, i: nat, p: nat, ghost ds: seq<Digit>)
    requires |table| == 64 && from <= |s|
    ensures i == |ds| <= 4 && from + i <= p <= |s| && (i == 4 || p == |s|)
    ensures Digits(table, s[from..]) == ds + Digits(table, s[p..])
    ensures w == Accumulated(ds)
  {
    hide Accumulated, PushDigit;
    w, i, p, ds := 0, 0, from, [];
    AccumulatedNone();
    assert ds + Digits(table, s[p..]) == Digits(table, s[p..]);
    while i < 4 && p < |s|
      invariant i == |ds| <= 4 && from + i <= p <= |s|
      invariant Digits(table, s[from..]) == ds + Digits(table, s[p..])
      invariant w == Accumulated(ds)
      decreases |s| - p
    {
      var k := DecodeChar(table, s[p]);
      SkipOne(table, s, p, ds);
      p := p + 1;
      if k == -1 { continue; }
      AccumulateStep(ds, k as Digit);
      w := ShiftDigitIn(w, k as Digit);
      ds := ds + [k as Digit];
      i := i + 1;
    }
  }

  /** What reading one character does to the digits read so far and those to come. */
  lemma SkipOne(table: string, s: string, p: nat, ds: seq<Digit>)
    requires |table| == 64 && p < |s|
    ensures var k := IndexFrom(table, s[p], 0);
            ds + Digits(table, s[p..]) == (if k == -1 then ds else ds + [k as Digit]) + Digits(table, s[p + 1..])
  {
    assert s[p..][0] == s[p] && s[p..][1..] == s[p + 1..];
    var rest := Digits(table, s[p + 1..]);
    assert [] + rest == rest;
  }

  method AlignWord(w: bv32, digits: nat) returns (aligned: bv32)
    requires digits <= 4
    ensures aligned == Aligned(w, digits)
  {
    var bits := 6 * digits;
    aligned := w << (24 - bits);
  }

  function TopByte(w: bv32): Byte {
    ((w & 0x00ff_0000) >> 16) as bv8
  }

  method TakeByte(word: bv32) returns (b: Byte, w: bv32)
    ensures b == TopByte(word) && w == ShiftedBytes(word, 1)
  {
    b := ((word & 0x00ff_0000) >> 16) as bv8;
    w := word << 8;
  }

  function ShiftedBytes(w: bv32, k: nat): bv32
    requires k <= 3
  {
    match k
    case 0 => w
    case 1 => w << 8
    case 2 => w << 16
    case _ => w << 24
  }

  lemma ShiftByteFacts(w: bv32)
    ensures (w << 8) << 8 == w << 16 && (w << 16) << 8 == w << 24
  {
  }

  lemma ShiftByteStep(w: bv32, k: nat)
    requires k < 3
    ensures ShiftedBytes(ShiftedBytes(w, k), 1) == ShiftedBytes(w, k + 1)
  {
    ShiftByteFacts(w);
    match k
    case 0 =>
    case 1 =>
    case _ =>
  }

  lemma TopByteIs(w: bv32, k: nat)
    requires k < 3
    ensures TopByte(ShiftedBytes(w, k)) == ByteOf(w, k)
  {
    match k
    case 0 =>
    case 1 =>
    case _ =>
  }

  lemma ShiftedBytesNone(w: bv32)
    ensures ShiftedBytes(w, 0) == w
  {
  }

  /** Writes the whole bytes that `digits` digits hold. */
  method WriteBytes(word: bv32, digits: nat, dest: array<Byte>, at: nat) returns (written: nat)
    requires digits <= 4 && at + 6 * digits / 8 <= dest.Length
    modifies dest
    ensures written == at + 6 * digits / 8
    ensures dest[..written] == old(dest[..at]) + Bytes(word, digits)
  {
    hide ShiftedBytes, ByteOf, TopByte;
    var w := word;
    written := at;
    ShiftedBytesNone(word);
    ghost var bytes := Bytes(word, digits);
    for k := 0 to 6 * digits / 8
      invariant written == at + k && w == ShiftedBytes(word, k)
      invariant dest[..written] == old(dest[..at]) + bytes[..k]
    {
      ShiftByteStep(word, k);
      TopByteIs(word, k);
      ghost var before := dest[..written];
      var b;
      b, w := TakeByte(w);
      dest[written] := b;
      assert dest[..written + 1] == before + [bytes[k]];
      written := written + 1;
    }
  }

  lemma GroupDecodes(ds: seq<Digit>, rest: seq<Digit>)
    requires |ds| == 4 || (|ds| < 4 && rest == [])
    ensures FromDigits(ds + rest) == (if ds == [] then [] else Bytes(Pack(ds), |ds|)) + FromDigits(rest)
  {
    hide Bytes, Pack;
    if |ds| == 4 {
      FromGroup(ds, rest);
    } else {
      assert ds + rest == ds && FromDigits(rest) == [];
      if ds != [] {
        assert Bytes(Pack(ds), |ds|) + [] == Bytes(Pack(ds), |ds|);
      }
    }
  }

  lemma NoDigitsLeft(table: string, s: string, p: nat)
    requires |table| == 64 && p <= |s|
    ensures p == |s| ==> Digits(table, s[p..]) == []
  {
  }

  /** The decoder: a buffer as long as the input is enough, and holds the decoded bytes at its front. */
  method Decode(table: string, s: string, dest: array<Byte>) returns (written: nat)
    requires |table| == 64 && dest.Length >= |s|
    modifies dest
    ensures written <= dest.Length && dest[..written] == Decoded(table, s)
  {
    hide Digits, Pack, Aligned, Accumulated, Bytes;
    written := 0;
    var p := 0;
    assert s[0..] == s;
    while p < |s|
      invariant written <= p <= |s|
      invariant dest[..written] + FromDigits(Digits(table, s[p..])) == Decoded(table, s)
      decreases |s| - p
    {
      ghost var before, was := dest[..written], p;
      ghost var ds;
      var w, i;
      w, i, p, ds := ReadGroup(table, s, p);
      NoDigitsLeft(table, s, p);
      GroupDecodes(ds, Digits(table, s[p..]));
      w := AlignWord(w, i);
      if i > 0 { AlignedIsPack(ds); }
      written := WriteBytes(w, i, dest, written);
      ghost var bytes := if ds == [] then [] else Bytes(Pack(ds), i);
      assert dest[..written] == before + bytes;
      ghost var rest := FromDigits(Digits(table, s[p..]));
      assert before + bytes + rest == before + (bytes + rest);
    }
    NoDigitsLeft(table, s, p);
    assert dest[..written] + [] == dest[..written];
  }
}
