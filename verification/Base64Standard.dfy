/** Base64 as section 4 of RFC 4648 defines it, on the bits of the input, and the encoder's agreement with it. */
module Base64Standard {
  import opened Base64Codec
  import opened Base64Tables

  /** Bit r of a byte, counted from the most significant. */
  predicate BitOf(b: Byte, r: nat)
    requires r < 8
  {
    match r
    case 0 => b & 0x80 != 0
    case 1 => b & 0x40 != 0
    case 2 => b & 0x20 != 0
    case 3 => b & 0x10 != 0
    case 4 => b & 0x08 != 0
    case 5 => b & 0x04 != 0
    case 6 => b & 0x02 != 0
    case _ => b & 0x01 != 0
  }

  /** The input as one stream of bits, most significant first, with zero bits added at the end. */
  predicate Bit(src: seq<Byte>, i: nat) {
    BitOf(ByteAt(src, i / 8), i % 8)
  }

  function SixBits(b0: bool, b1: bool, b2: bool, b3: bool, b4: bool, b5: bool): Digit {
    (if b0 then 32 else 0) | (if b1 then 16 else 0) | (if b2 then 8 else 0) |
    (if b3 then 4 else 0) | (if b4 then 2 else 0) | (if b5 then 1 else 0)
  }

  /** The j-th group of six bits of the stream. */
  function StreamDigit(src: seq<Byte>, j: nat): Digit {
    SixBits(Bit(src, 6 * j), Bit(src, 6 * j + 1), Bit(src, 6 * j + 2),
            Bit(src, 6 * j + 3), Bit(src, 6 * j + 4), Bit(src, 6 * j + 5))
  }

  function StreamChar(table: string, src: seq<Byte>, j: nat): char
    requires |table| == 64
  {
    table[StreamDigit(src, j) as int]
  }

  /** The number of six-bit groups that cover the input. */
  function DigitCount(src: seq<Byte>): nat {
    (8 * |src| + 5) / 6
  }

  /** One character for each group of six bits. */
  function StreamText(table: string, src: seq<Byte>): string
    requires |table| == 64
  {
    seq(DigitCount(src), j requires 0 <= j < DigitCount(src) => StreamChar(table, src, j))
  }

  /** The encoding of the RFC: with "=" up to a multiple of four characters. */
  function Rfc4648(src: seq<Byte>): string
    requires |STANDARD| == 64
  {
    StreamText(STANDARD, src) + Padding(src)
  }

  function Padding(src: seq<Byte>): string {
    seq((4 - DigitCount(src) % 4) % 4, _ => '=')
  }

  /** Cutting three bytes by shifts gives the same six bits as the stream. */
  lemma CutIsStream(a: Byte, b: Byte, c: Byte)
    ensures DigitOf(Word(a, b, c), 0) == SixBits(BitOf(a, 0), BitOf(a, 1), BitOf(a, 2), BitOf(a, 3), BitOf(a, 4), BitOf(a, 5))
    ensures DigitOf(Word(a, b, c), 1) == SixBits(BitOf(a, 6), BitOf(a, 7), BitOf(b, 0), BitOf(b, 1), BitOf(b, 2), BitOf(b, 3))
    ensures DigitOf(Word(a, b, c), 2) == SixBits(BitOf(b, 4), BitOf(b, 5), BitOf(b, 6), BitOf(b, 7), BitOf(c, 0), BitOf(c, 1))
    ensures DigitOf(Word(a, b, c), 3) == SixBits(BitOf(c, 2), BitOf(c, 3), BitOf(c, 4), BitOf(c, 5), BitOf(c, 6), BitOf(c, 7))
  {
  }

  /** Bit r of a group of three bytes. */
  predicate GroupBit(src: seq<Byte>, g: nat, r: nat)
    requires r < 24
  {
    BitOf(ByteAt(src, 3 * g + r / 8), r % 8)
  }

  lemma StreamPosition(src: seq<Byte>, g: nat, r: nat)
    requires r < 24
    ensures Bit(src, 24 * g + r) == GroupBit(src, g, r)
  {
    hide BitOf;
    assert (24 * g + r) / 8 == 3 * g + r / 8 && (24 * g + r) % 8 == r % 8;
  }

  lemma StreamSix(src: seq<Byte>, g: nat, k: nat)
    requires k < 4
    ensures StreamDigit(src, 4 * g + k) ==
            SixBits(GroupBit(src, g, 6 * k), GroupBit(src, g, 6 * k + 1), GroupBit(src, g, 6 * k + 2),
                    GroupBit(src, g, 6 * k + 3), GroupBit(src, g, 6 * k + 4), GroupBit(src, g, 6 * k + 5))
  {
    hide Bit, BitOf, SixBits;
    assert 6 * (4 * g + k) == 24 * g + 6 * k;
    StreamPosition(src, g, 6 * k);
    StreamPosition(src, g, 6 * k + 1);
    StreamPosition(src, g, 6 * k + 2);
    StreamPosition(src, g, 6 * k + 3);
    StreamPosition(src, g, 6 * k + 4);
    StreamPosition(src, g, 6 * k + 5);
  }

  lemma GroupIsStream(src: seq<Byte>, g: nat, k: nat)
    requires k < 4
    ensures DigitOf(WordAt(src, 3 * g), k) == StreamDigit(src, 4 * g + k)
  {
    hide DigitOf, Word, StreamDigit, BitOf, SixBits, ByteAt;
    CutIsStream(ByteAt(src, 3 * g), ByteAt(src, 3 * g + 1), ByteAt(src, 3 * g + 2));
    StreamSix(src, g, k);
    match k
    case 0 =>
    case 1 =>
    case 2 =>
    case _ =>
      assert k == 3;
  }

  /** Without line breaks the lines are the text itself. */
  lemma {:induction false} LinesUnbroken(body: string, count: nat)
    requires LINE * count <= |body|
    ensures Lines(body, count, false) == body[..LINE * count]
    decreases count
  {
    if count > 0 {
      LinesUnbroken(body, count - 1);
      assert body[..LINE * count] == body[..LINE * (count - 1)] + body[LINE * (count - 1)..LINE * count] + "";
    }
  }

  lemma {:induction false} BodyIsStream(table: string, src: seq<Byte>, groups: nat)
    requires 3 * groups <= |src| && |table| == 64
    ensures Body(table, src, groups) == seq(4 * groups, j requires 0 <= j < 4 * groups => StreamChar(table, src, j))
    decreases groups
  {
    hide StreamChar;
    if groups > 0 {
      BodyIsStream(table, src, groups - 1);
      CharsAreStream(table, src, groups - 1, 4);
      assert 4 * groups == 4 * (groups - 1) + 4;
    }
  }

  lemma CharsAreStream(table: string, src: seq<Byte>, g: nat, count: nat)
    requires count <= 4 && |table| == 64
    ensures Chars(table, WordAt(src, 3 * g), count) == seq(count, k requires 0 <= k < count => StreamChar(table, src, 4 * g + k))
  {
    hide DigitOf, StreamDigit, WordAt;
    forall k | 0 <= k < count
      ensures table[DigitOf(WordAt(src, 3 * g), k) as int] == StreamChar(table, src, 4 * g + k)
    {
      GroupIsStream(src, g, k);
    }
  }

  lemma TailIsStream(table: string, src: seq<Byte>, pad: bool)
    requires |table| == 64
    ensures var left, start := |src| % 3, 4 * (|src| / 3);
            var count := if left == 0 then 0 else left + 1;
            Tail(table, src, pad) ==
            seq(count, k requires 0 <= k < count => StreamChar(table, src, start + k)) + if pad then seq((4 - count) % 4, _ => '=') else ""
  {
    hide StreamChar, Chars;
    var groups, left := |src| / 3, |src| % 3;
    assert |src| - left == 3 * groups;
    if left > 0 {
      CharsAreStream(table, src, groups, left + 1);
    }
  }

  lemma SeqSplit<T>(n: nat, m: nat, f: nat -> T)
    ensures seq(n + m, j requires 0 <= j < n + m => f(j)) ==
            seq(n, j requires 0 <= j < n => f(j)) + seq(m, k requires 0 <= k < m => f(n + k))
  {
  }

  /** Whatever the table, without line breaks the encoding is the stream in groups of six bits, with or without padding. */
  lemma EncodesStream(table: string, src: seq<Byte>, pad: bool)
    requires |table| == 64
    ensures Encoded(table, src, pad, false) == StreamText(table, src) + if pad then Padding(src) else ""
  {
    hide StreamChar, Chars, Lines, Body, Tail;
    var groups, left := |src| / 3, |src| % 3;
    var count := if left == 0 then 0 else left + 1;
    var body := Body(table, src, groups);
    LinesUnbroken(body, |body| / LINE);
    assert body == body[..LINE * (|body| / LINE)] + body[LINE * (|body| / LINE)..];
    BodyIsStream(table, src, groups);
    assert |src| == 3 * groups + left;
    assert DigitCount(src) == 4 * groups + count;
    TailIsStream(table, src, pad);
    SeqSplit(4 * groups, count, j => StreamChar(table, src, j));
    assert (4 - DigitCount(src) % 4) % 4 == (4 - count) % 4;
  }

  /** The encoder with the standard table, padding and no line breaks is the encoding of the RFC. */
  lemma EncodesAsRfc4648(src: seq<Byte>)
    requires |STANDARD| == 64
    ensures Encoded(STANDARD, src, true, false) == Rfc4648(src)
  {
    hide Encoded, STANDARD;
    EncodesStream(STANDARD, src, true);
  }

  // ---- Line breaks ----

  lemma {:induction false} LinesBroken(body: string, count: nat, i: nat)
    requires LINE * count <= |body| && i < 78 * count
    ensures Lines(body, count, true)[i] ==
            if i % 78 == 76 then '\r' else if i % 78 == 77 then '\n' else body[LINE * (i / 78) + i % 78]
    decreases count
  {
    var front := Lines(body, count - 1, true);
    if i < 78 * (count - 1) {
      LinesBroken(body, count - 1, i);
      assert Lines(body, count, true)[i] == front[i];
    } else {
      var r := i - 78 * (count - 1);
      LineNumber(count - 1, r);
      assert Lines(body, count, true)[i] == (body[LINE * (count - 1)..LINE * count] + "\r\n")[r];
    }
  }

  lemma LineNumber(m: nat, r: nat)
    requires r < 78
    ensures (78 * m + r) / 78 == m && (78 * m + r) % 78 == r
  {
  }

  /** Where a character of a broken text stands without the breaks. */
  function Unbroken(i: nat): nat {
    LINE * (i / 78) + i % 78
  }

  lemma UnbrokenFits(i: nat, count: nat)
    requires i < 78 * count && i % 78 < 76
    ensures Unbroken(i) < LINE * count
  {
    assert i / 78 + 1 <= count;
  }

  ghost predicate BrokenAt(broken: string, plain: string, i: nat)
    requires i < |broken|
  {
    if i % 78 == 76 then broken[i] == '\r'
    else if i % 78 == 77 then broken[i] == '\n'
    else Unbroken(i) < |plain| && broken[i] == plain[Unbroken(i)]
  }

  lemma BreaksIn(body: string, tail: string, count: nat)
    requires LINE * count <= |body|
    ensures var plain, broken := body + tail, Lines(body, count, true) + body[LINE * count..] + tail;
            && |broken| == |plain| + 2 * count
            && (forall i :: 0 <= i < 78 * count ==> BrokenAt(broken, plain, i))
            && (forall i :: 78 * count <= i < |broken| ==> broken[i] == plain[i - 2 * count])
  {
    var plain, broken, lines := body + tail, Lines(body, count, true) + body[LINE * count..] + tail, Lines(body, count, true);
    forall i | 0 <= i < 78 * count ensures BrokenAt(broken, plain, i) {
      assert broken[i] == lines[i];
      LinesBroken(body, count, i);
      if i % 78 < 76 {
        UnbrokenFits(i, count);
        assert plain[Unbroken(i)] == body[Unbroken(i)];
      }
    }
    assert plain == body[..LINE * count] + (body[LINE * count..] + tail);
    assert broken == lines + (body[LINE * count..] + tail);
  }

  /** Line breaks stand after every 76 characters of the complete groups, and nothing else is different. */
  lemma EncodesWithBreaks(table: string, src: seq<Byte>, pad: bool)
    requires |table| == 64
    ensures var plain, broken, count := Encoded(table, src, pad, false), Encoded(table, src, pad, true), 4 * (|src| / 3) / LINE;
            && |broken| == |plain| + 2 * count
            && (forall i :: 0 <= i < 78 * count ==> i < |broken| && BrokenAt(broken, plain, i))
            && (forall i :: 78 * count <= i < |broken| ==> broken[i] == plain[i - 2 * count])
  {
    hide Body, Tail, Lines, BrokenAt;
    var body, tail := Body(table, src, |src| / 3), Tail(table, src, pad);
    var count := |body| / LINE;
    LinesUnbroken(body, count);
    assert body == body[..LINE * count] + body[LINE * count..];
    BreaksIn(body, tail, count);
  }

  // ---- Decoding ----

  /** Bit r of a digit, counted from the most significant. */
  predicate DigitBit(d: Digit, r: nat)
    requires r < 6
  {
    match r
    case 0 => d & 0x20 != 0
    case 1 => d & 0x10 != 0
    case 2 => d & 0x08 != 0
    case 3 => d & 0x04 != 0
    case 4 => d & 0x02 != 0
    case _ => d & 0x01 != 0
  }

  /** The digits as one stream of bits. */
  predicate BitIn(ds: seq<Digit>, i: nat) {
    DigitBit(DigitAt(ds, i / 6), i % 6)
  }

  lemma FirstByte(a: Digit, b: Digit, c: Digit, d: Digit)
    ensures var x := ByteOf(FourDigits(a, b, c, d), 0);
            && BitOf(x, 0) == DigitBit(a, 0) && BitOf(x, 1) == DigitBit(a, 1) && BitOf(x, 2) == DigitBit(a, 2)
            && BitOf(x, 3) == DigitBit(a, 3) && BitOf(x, 4) == DigitBit(a, 4) && BitOf(x, 5) == DigitBit(a, 5)
            && BitOf(x, 6) == DigitBit(b, 0) && BitOf(x, 7) == DigitBit(b, 1)
  {
  }

  lemma SecondByte(a: Digit, b: Digit, c: Digit, d: Digit)
    ensures var x := ByteOf(FourDigits(a, b, c, d), 1);
            && BitOf(x, 0) == DigitBit(b, 2) && BitOf(x, 1) == DigitBit(b, 3) && BitOf(x, 2) == DigitBit(b, 4)
            && BitOf(x, 3) == DigitBit(b, 5) && BitOf(x, 4) == DigitBit(c, 0) && BitOf(x, 5) == DigitBit(c, 1)
            && BitOf(x, 6) == DigitBit(c, 2) && BitOf(x, 7) == DigitBit(c, 3)
  {
  }

  lemma ThirdByte(a: Digit, b: Digit, c: Digit, d: Digit)
    ensures var x := ByteOf(FourDigits(a, b, c, d), 2);
            && BitOf(x, 0) == DigitBit(c, 4) && BitOf(x, 1) == DigitBit(c, 5) && BitOf(x, 2) == DigitBit(d, 0)
            && BitOf(x, 3) == DigitBit(d, 1) && BitOf(x, 4) == DigitBit(d, 2) && BitOf(x, 5) == DigitBit(d, 3)
            && BitOf(x, 6) == DigitBit(d, 4) && BitOf(x, 7) == DigitBit(d, 5)
  {
  }

  /** The bytes of up to four digits are their stream. */
  lemma PackedBits(ds: seq<Digit>, k: nat, r: nat)
    requires k < 3 && r < 8
    ensures BitOf(ByteOf(Pack(ds), k), r) == BitIn(ds, 8 * k + r)
  {
    if k == 0 {
      FirstBits(ds, r);
    } else if k == 1 {
      SecondBits(ds, r);
    } else {
      assert k == 2;
      ThirdBits(ds, r);
    }
  }

  lemma FirstBits(ds: seq<Digit>, r: nat)
    requires r < 8
    ensures BitOf(ByteOf(Pack(ds), 0), r) == BitIn(ds, 0 + r)
  {
    FirstByte(DigitAt(ds, 0), DigitAt(ds, 1), DigitAt(ds, 2), DigitAt(ds, 3));
    hide BitOf, DigitBit, ByteOf, FourDigits, DigitAt;
    assert r == 0 || r == 1 || r == 2 || r == 3 || r == 4 || r == 5 || r == 6 || r == 7;
  }

  lemma SecondBits(ds: seq<Digit>, r: nat)
    requires r < 8
    ensures BitOf(ByteOf(Pack(ds), 1), r) == BitIn(ds, 8 + r)
  {
    SecondByte(DigitAt(ds, 0), DigitAt(ds, 1), DigitAt(ds, 2), DigitAt(ds, 3));
    hide BitOf, DigitBit, ByteOf, FourDigits, DigitAt;
    assert r == 0 || r == 1 || r == 2 || r == 3 || r == 4 || r == 5 || r == 6 || r == 7;
  }

  lemma ThirdBits(ds: seq<Digit>, r: nat)
    requires r < 8
    ensures BitOf(ByteOf(Pack(ds), 2), r) == BitIn(ds, 16 + r)
  {
    ThirdByte(DigitAt(ds, 0), DigitAt(ds, 1), DigitAt(ds, 2), DigitAt(ds, 3));
    hide BitOf, DigitBit, ByteOf, FourDigits, DigitAt;
    assert r == 0 || r == 1 || r == 2 || r == 3 || r == 4 || r == 5 || r == 6 || r == 7;
  }

  lemma BitBehind(ds: seq<Digit>, i: nat)
    requires |ds| >= 4
    ensures BitIn(ds, 24 + i) == BitIn(ds[4..], i)
    ensures i < 24 ==> BitIn(ds, i) == BitIn(ds[..4], i)
  {
    hide DigitBit;
    assert (24 + i) / 6 == 4 + i / 6 && (24 + i) % 6 == i % 6;
  }

  /** Digits are decoded to the whole bytes of their stream of bits, whatever their number. */
  lemma {:induction false} DecodesStream(ds: seq<Digit>)
    ensures |FromDigits(ds)| == 6 * |ds| / 8
    ensures forall i: nat, r: nat :: i < |FromDigits(ds)| && r < 8 ==> BitOf(FromDigits(ds)[i], r) == BitIn(ds, 8 * i + r)
    decreases |ds|
  {
    hide BitOf, BitIn, Pack, ByteOf;
    if |ds| > 4 {
      DecodesStream(ds[4..]);
    }
    forall i: nat, r: nat | i < |FromDigits(ds)| && r < 8 ensures BitOf(FromDigits(ds)[i], r) == BitIn(ds, 8 * i + r) {
      if |ds| <= 4 {
        PackedBits(ds, i, r);
      } else if i < 3 {
        PackedBits(ds[..4], i, r);
        BitBehind(ds, 8 * i + r);
      } else {
        BitBehind(ds, 8 * (i - 3) + r);
      }
    }
  }
}
