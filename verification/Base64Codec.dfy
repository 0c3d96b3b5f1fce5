/** What the Base64 encoder and decoder compute, on sequences. */
module Base64Codec {
  import opened Text

  type Byte = bv8
  type Digit = bv6

  /** A table of 64 different characters, none of them used for padding or line breaks. */
  ghost predicate IsTable(table: string) {
    && |table| == 64
    && (forall i, j :: 0 <= i < j < 64 ==> table[i] != table[j])
    && '=' !in table && '\r' !in table && '\n' !in table
  }

  // ---- Encoding ----

  /** Three bytes in the upper 24 bits of a 32-bit word. */
  function Word(a: Byte, b: Byte, c: Byte): bv32 {
    ((a as bv32) << 24) | ((b as bv32) << 16) | ((c as bv32) << 8)
  }

  /** The k-th group of six bits from the top. */
  function DigitOf(w: bv32, k: nat): Digit
    requires k < 4
  {
    match k
    case 0 => (w >> 26) as bv6
    case 1 => ((w << 6) >> 26) as bv6
    case 2 => ((w << 12) >> 26) as bv6
    case _ => ((w << 18) >> 26) as bv6
  }

  function ByteAt(src: seq<Byte>, i: nat): Byte {
    if i < |src| then src[i] else 0
  }

  /** The word of the group of three bytes that starts at `i`; missing bytes are zero. */
  function WordAt(src: seq<Byte>, i: nat): bv32 {
    Word(ByteAt(src, i), ByteAt(src, i + 1), ByteAt(src, i + 2))
  }

  function Chars(table: string, w: bv32, count: nat): (s: string)
    requires |table| == 64 && count <= 4
    ensures |s| == count
  {
    seq(count, k requires 0 <= k < count => table[DigitOf(w, k) as int])
  }

  /** The first `groups` complete groups, four characters each. */
  function Body(table: string, src: seq<Byte>, groups: nat): (s: string)
    requires |table| == 64 && 3 * groups <= |src|
    ensures |s| == 4 * groups
  {
    if groups == 0 then "" else Body(table, src, groups - 1) + Chars(table, WordAt(src, 3 * (groups - 1)), 4)
  }

  /** The one or two bytes left over, as two or three characters and padding. */
  function Tail(table: string, src: seq<Byte>, pad: bool): string
    requires |table| == 64
  {
    var left := |src| % 3;
    if left == 0 then ""
    else Chars(table, WordAt(src, |src| - left), left + 1) +
         (if pad then if left == 1 then "==" else "=" else "")
  }

  const LINE := 76

  /** The first `count` full lines, each ended by a line break if asked for. */
  function Lines(body: string, count: nat, breaks: bool): (s: string)
    requires LINE * count <= |body|
    ensures |s| == (if breaks then 78 else 76) * count
  {
    if count == 0 then ""
    else Lines(body, count - 1, breaks) + body[LINE * (count - 1)..LINE * count] + (if breaks then "\r\n" else "")
  }

  function Encoded(table: string, src: seq<Byte>, pad: bool, breaks: bool): string
    requires |table| == 64
  {
    var body := Body(table, src, |src| / 3);
    var count := |body| / LINE;
    Lines(body, count, breaks) + body[LINE * count..] + Tail(table, src, pad)
  }

  // ---- Decoding ----

  function IndexFrom(table: string, c: char, i: nat): (k: int)
    requires i <= |table|
    ensures -1 <= k < |table|
    ensures k >= 0 ==> k >= i && table[k] == c
    ensures k == -1 ==> forall j :: i <= j < |table| ==> table[j] != c
    decreases |table| - i
  {
    if i == |table| then -1 else if table[i] == c then i else IndexFrom(table, c, i + 1)
  }

  /** The digits of the characters that are in the table; all others are skipped. */
  function Digits(table: string, s: string): seq<Digit>
    requires |table| == 64
    decreases |s|
  {
    if s == "" then []
    else
      var k := IndexFrom(table, s[0], 0);
      (if k == -1 then [] else [k as Digit]) + Digits(table, s[1..])
  }

  function DigitAt(ds: seq<Digit>, i: nat): Digit {
    if i < |ds| then ds[i] else 0
  }

  /** Four digits in the lower 24 bits. */
  function FourDigits(a: Digit, b: Digit, c: Digit, d: Digit): bv32 {
    ((a as bv32) << 18) | ((b as bv32) << 12) | ((c as bv32) << 6) | (d as bv32)
  }

  /** Up to four digits in the lower 24 bits, missing ones zero. */
  function Pack(ds: seq<Digit>): bv32 {
    FourDigits(DigitAt(ds, 0), DigitAt(ds, 1), DigitAt(ds, 2), DigitAt(ds, 3))
  }

  function ByteOf(w: bv32, k: nat): Byte
    requires k < 3
  {
    match k
    case 0 => ((w & 0x00ff_0000) >> 16) as bv8
    case 1 => (((w << 8) & 0x00ff_0000) >> 16) as bv8
    case _ => (((w << 16) & 0x00ff_0000) >> 16) as bv8
  }

  /** The whole bytes that `count` digits hold. */
  function Bytes(w: bv32, count: nat): (b: seq<Byte>)
    requires count <= 4
    ensures |b| == 6 * count / 8
  {
    seq(6 * count / 8, k requires 0 <= k < 6 * count / 8 => ByteOf(w, k))
  }

  function FromDigits(ds: seq<Digit>): seq<Byte>
    decreases |ds|
  {
    if ds == [] then []
    else if |ds| <= 4 then Bytes(Pack(ds), |ds|)
    else Bytes(Pack(ds[..4]), 4) + FromDigits(ds[4..])
  }

  function Decoded(table: string, s: string): seq<Byte>
    requires |table| == 64
  {
    FromDigits(Digits(table, s))
  }

  // ---- Skipped characters ----

  lemma {:induction false} DigitsConcat(table: string, a: string, b: string)
    requires |table| == 64
    ensures Digits(table, a + b) == Digits(table, a) + Digits(table, b)
    decreases |a|
  {
    if a == "" {
      assert a + b == b;
    } else {
      assert (a + b)[1..] == a[1..] + b;
      DigitsConcat(table, a[1..], b);
    }
  }

  lemma {:induction false} DigitsOfOthers(table: string, s: string)
    requires |table| == 64 && forall c :: c in s ==> c !in table
    ensures Digits(table, s) == []
    decreases |s|
  {
    if s != "" {
      assert s[0] in s;
      DigitsOfOthers(table, s[1..]);
    }
  }

  /** Characters outside the table change nothing, wherever they are inserted. */
  lemma OthersAreSkipped(table: string, a: string, others: string, b: string)
    requires |table| == 64 && forall c :: c in others ==> c !in table
    ensures Decoded(table, a + others + b) == Decoded(table, a + b)
  {
    DigitsConcat(table, a + others, b);
    DigitsConcat(table, a, others);
    DigitsConcat(table, a, b);
    DigitsOfOthers(table, others);
    assert Digits(table, a) + [] == Digits(table, a);
  }

  // ---- The round trip ----

  /** The digits of the bytes from `i` on. */
  function DigitsOfBytes(src: seq<Byte>, i: nat): seq<Digit>
    requires i <= |src|
    decreases |src| - i
  {
    if i == |src| then []
    else
      var w := WordAt(src, i);
      if |src| - i == 1 then [DigitOf(w, 0), DigitOf(w, 1)]
      else if |src| - i == 2 then [DigitOf(w, 0), DigitOf(w, 1), DigitOf(w, 2)]
      else [DigitOf(w, 0), DigitOf(w, 1), DigitOf(w, 2), DigitOf(w, 3)] + DigitsOfBytes(src, i + 3)
  }

  lemma IndexOfEntry(table: string, k: nat)
    requires IsTable(table) && k < 64
    ensures IndexFrom(table, table[k], 0) == k
  {
    var j := IndexFrom(table, table[k], 0);
    assert table[k] in table;
    if j < k {
    } else if k < j {
    }
  }

  /** The first digits of a word. */
  function FirstDigits(w: bv32, count: nat): (ds: seq<Digit>)
    requires count <= 4
    ensures |ds| == count
  {
    if count == 0 then [] else FirstDigits(w, count - 1) + [DigitOf(w, count - 1)]
  }

  lemma FourFirstDigits(w: bv32)
    ensures FirstDigits(w, 2) == [DigitOf(w, 0), DigitOf(w, 1)]
    ensures FirstDigits(w, 3) == [DigitOf(w, 0), DigitOf(w, 1), DigitOf(w, 2)]
    ensures FirstDigits(w, 4) == [DigitOf(w, 0), DigitOf(w, 1), DigitOf(w, 2), DigitOf(w, 3)]
  {
    hide DigitOf;
    assert FirstDigits(w, 1) == [DigitOf(w, 0)];
  }

  lemma DigitsOfEntry(table: string, d: Digit)
    requires IsTable(table)
    ensures Digits(table, [table[d as int]]) == [d]
  {
    IndexOfEntry(table, d as int);
    var last := [table[d as int]];
    assert last[1..] == "";
  }

  lemma {:induction false} DigitsOfChars(table: string, w: bv32, count: nat)
    requires IsTable(table) && count <= 4
    ensures Digits(table, Chars(table, w, count)) == FirstDigits(w, count)
  {
    if count == 0 {
      DigitsOfOthers(table, "");
    } else {
      hide DigitOf, Digits;
      DigitsOfChars(table, w, count - 1);
      var d := DigitOf(w, count - 1);
      DigitsOfEntry(table, d);
      assert Chars(table, w, count) == Chars(table, w, count - 1) + [table[d as int]];
      DigitsConcat(table, Chars(table, w, count - 1), [table[d as int]]);
    }
  }

  lemma GroupOfBytes(src: seq<Byte>, i: nat)
    requires i + 3 <= |src|
    ensures DigitsOfBytes(src, i) == FirstDigits(WordAt(src, i), 4) + DigitsOfBytes(src, i + 3)
  {
    hide DigitOf, WordAt;
    FourFirstDigits(WordAt(src, i));
  }

  lemma {:induction false} DigitsOfBody(table: string, src: seq<Byte>, groups: nat)
    requires IsTable(table) && 3 * groups <= |src|
    ensures Digits(table, Body(table, src, groups)) + DigitsOfBytes(src, 3 * groups) == DigitsOfBytes(src, 0)
    decreases groups
  {
    if groups == 0 {
      DigitsOfOthers(table, "");
      hide DigitsOfBytes, Digits;
      var all := DigitsOfBytes(src, 0);
      assert [] + all == all;
    } else {
      var w, before := WordAt(src, 3 * (groups - 1)), Body(table, src, groups - 1);
      hide Chars, WordAt;
      assert Body(table, src, groups) == before + Chars(table, w, 4);
      hide FirstDigits, DigitsOfBytes, Digits, Body;
      DigitsOfBody(table, src, groups - 1);
      DigitsConcat(table, before, Chars(table, w, 4));
      DigitsOfChars(table, w, 4);
      GroupOfBytes(src, 3 * (groups - 1));
      Regroup(Digits(table, before), FirstDigits(w, 4), DigitsOfBytes(src, 3 * groups));
    }
  }

  lemma {:induction false} DigitsOfLines(table: string, body: string, count: nat, breaks: bool)
    requires IsTable(table) && LINE * count <= |body|
    ensures Digits(table, Lines(body, count, breaks)) == Digits(table, body[..LINE * count])
    decreases count
  {
    if count > 0 {
      var before, line := Lines(body, count - 1, breaks), body[LINE * (count - 1)..LINE * count];
      var end := if breaks then "\r\n" else "";
      assert Lines(body, count, breaks) == before + line + end;
      hide Digits, Lines;
      DigitsOfLines(table, body, count - 1, breaks);
      DigitsWithOthers(table, before + line, end);
      SameDigitsBefore(table, before, body[..LINE * (count - 1)], line);
      Extended(body, LINE * (count - 1), LINE * count);
    }
  }

  lemma SameDigitsBefore(table: string, a: string, b: string, line: string)
    requires |table| == 64 && Digits(table, a) == Digits(table, b)
    ensures Digits(table, a + line) == Digits(table, b + line)
  {
    hide Digits;
    DigitsConcat(table, a, line);
    DigitsConcat(table, b, line);
  }

  lemma Extended(s: string, i: nat, j: nat)
    requires i <= j <= |s|
    ensures s[..i] + s[i..j] == s[..j]
  {
  }

  lemma DigitsWithOthers(table: string, s: string, others: string)
    requires |table| == 64 && forall c :: c in others ==> c !in table
    ensures Digits(table, s + others) == Digits(table, s)
  {
    DigitsConcat(table, s, others);
    DigitsOfOthers(table, others);
    var ds := Digits(table, s);
    assert ds + [] == ds;
  }

  lemma DigitsOfTail(table: string, src: seq<Byte>, pad: bool)
    requires IsTable(table)
    ensures Digits(table, Tail(table, src, pad)) == DigitsOfBytes(src, |src| - |src| % 3)
  {
    hide DigitOf, Word, Digits;
    var left := |src| % 3;
    if left > 0 {
      var w := WordAt(src, |src| - left);
      var end := if pad then if left == 1 then "==" else "=" else "";
      DigitsWithOthers(table, Chars(table, w, left + 1), end);
      DigitsOfChars(table, w, left + 1);
      FourFirstDigits(w);
    } else {
      DigitsOfOthers(table, "");
    }
  }

  lemma DigitsOfEncoded(table: string, src: seq<Byte>, pad: bool, breaks: bool)
    requires IsTable(table)
    ensures Digits(table, Encoded(table, src, pad, breaks)) == DigitsOfBytes(src, 0)
  {
    hide Digits, DigitsOfBytes, Body, Tail, Lines;
    var groups := |src| / 3;
    var body := Body(table, src, groups);
    var count := |body| / LINE;
    var lines, rest := Lines(body, count, breaks), body[LINE * count..];
    DigitsConcat(table, lines + rest, Tail(table, src, pad));
    DigitsConcat(table, lines, rest);
    DigitsOfLines(table, body, count, breaks);
    DigitsConcat(table, body[..LINE * count], rest);
    assert body == body[..LINE * count] + rest;
    DigitsOfTail(table, src, pad);
    DigitsOfBody(table, src, groups);
    assert 3 * groups == |src| - |src| % 3;
  }

  /** Three bytes survive being cut into four digits. */
  lemma GroupReadsBack(a: Byte, b: Byte, c: Byte)
    ensures var w := Word(a, b, c);
            var p := Pack([DigitOf(w, 0), DigitOf(w, 1), DigitOf(w, 2), DigitOf(w, 3)]);
            ByteOf(p, 0) == a && ByteOf(p, 1) == b && ByteOf(p, 2) == c
  {
  }

  lemma PairReadsBack(a: Byte, b: Byte)
    ensures var w := Word(a, b, 0);
            var p := Pack([DigitOf(w, 0), DigitOf(w, 1), DigitOf(w, 2)]);
            ByteOf(p, 0) == a && ByteOf(p, 1) == b
  {
  }

  lemma SingleReadsBack(a: Byte)
    ensures var w := Word(a, 0, 0);
            var p := Pack([DigitOf(w, 0), DigitOf(w, 1)]);
            ByteOf(p, 0) == a
  {
  }

  lemma {:induction false} FromDigitsReadsBack(src: seq<Byte>, i: nat)
    requires i <= |src|
    ensures FromDigits(DigitsOfBytes(src, i)) == src[i..]
    decreases |src| - i
  {
    hide DigitOf, ByteOf, Pack, Word;
    var left := |src| - i;
    if left == 0 {
      assert src[i..] == [];
    } else {
      var w := WordAt(src, i);
      assert w == Word(ByteAt(src, i), ByteAt(src, i + 1), ByteAt(src, i + 2));
      if left == 1 {
        SingleReadsBack(src[i]);
        assert src[i..] == [src[i]];
      } else if left == 2 {
        PairReadsBack(src[i], src[i + 1]);
        assert src[i..] == [src[i], src[i + 1]];
      } else {
        hide FromDigits, DigitsOfBytes, FirstDigits, WordAt;
        FromDigitsReadsBack(src, i + 3);
        GroupOfBytes(src, i);
        GroupBytes(src, i);
        FromGroup(FirstDigits(w, 4), DigitsOfBytes(src, i + 3));
        assert src[i..] == src[i..i + 3] + src[i + 3..];
      }
    }
  }

  lemma GroupBytes(src: seq<Byte>, i: nat)
    requires i + 3 <= |src|
    ensures Bytes(Pack(FirstDigits(WordAt(src, i), 4)), 4) == src[i..i + 3]
  {
    hide DigitOf, ByteOf, Pack, Word, FirstDigits;
    FourFirstDigits(WordAt(src, i));
    GroupReadsBack(src[i], src[i + 1], src[i + 2]);
    assert src[i..i + 3] == [src[i], src[i + 1], src[i + 2]];
  }

  lemma FromGroup(group: seq<Digit>, rest: seq<Digit>)
    requires |group| == 4
    ensures FromDigits(group + rest) == Bytes(Pack(group), 4) + FromDigits(rest)
  {
    hide Pack;
    if rest == [] {
      assert group + rest == group;
      assert Bytes(Pack(group), 4) + [] == Bytes(Pack(group), 4);
    } else {
      assert (group + rest)[..4] == group && (group + rest)[4..] == rest;
    }
  }

  /** Decoding undoes encoding for every byte sequence, every choice of padding and line breaks, and any table. */
  lemma DecodeUndoesEncode(table: string, src: seq<Byte>, pad: bool, breaks: bool)
    requires IsTable(table)
    ensures Decoded(table, Encoded(table, src, pad, breaks)) == src
  {
    DigitsOfEncoded(table, src, pad, breaks);
    FromDigitsReadsBack(src, 0);
  }
}
