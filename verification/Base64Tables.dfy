/** The two 64-character tables, written in rows of eight, and the proof that each is a table. */
module Base64Tables {
  import opened Base64Codec

  const STANDARD_0 := "ABCDEFGH"
  const STANDARD_1 := "IJKLMNOP"
  const STANDARD_2 := "QRSTUVWX"
  const STANDARD_3 := "YZabcdef"
  const STANDARD_4 := "ghijklmn"
  const STANDARD_5 := "opqrstuv"
  const STANDARD_6 := "wxyz0123"
  const STANDARD_7 := "456789+/"
  const STANDARD := STANDARD_0 + STANDARD_1 + STANDARD_2 + STANDARD_3 + STANDARD_4 + STANDARD_5 + STANDARD_6 + STANDARD_7

  const PRIVATE_0 := "CkEzO+J/"
  const PRIVATE_1 := "X61itgSs"
  const PRIVATE_2 := "vmoVT9nA"
  const PRIVATE_3 := "eBqYNhML"
  const PRIVATE_4 := "D0U3uy8G"
  const PRIVATE_5 := "bjQ2RHZF"
  const PRIVATE_6 := "fWrc5PIw"
  const PRIVATE_7 := "axlp47Kd"
  const PRIVATE := PRIVATE_0 + PRIVATE_1 + PRIVATE_2 + PRIVATE_3 + PRIVATE_4 + PRIVATE_5 + PRIVATE_6 + PRIVATE_7

  /** The position of a character in the alphabet of section 4 of RFC 4648, or -1. */
  function StandardPosition(c: char): int {
    if 'A' <= c <= 'Z' then c as int - 'A' as int
    else if 'a' <= c <= 'z' then c as int - 'a' as int + 26
    else if '0' <= c <= '9' then c as int - '0' as int + 52
    else if c == '+' then 62 else if c == '/' then 63 else -1
  }

  /** The position of a character in the private table, or -1: listed by character code from '+' on. */
  function PrivatePosition(c: char): int {
    var k := c as int - '+' as int;
    if k < 0 then -1
    else if k < 8 then [5, -1, -1, -1, 7, 33, 10, 43][k]
    else if k < 16 then [35, 60, 52, 9, 61, 38, 21, -1][k - 8]
    else if k < 24 then [-1, -1, -1, -1, -1, -1, 23, 25][k - 16]
    else if k < 32 then [0, 32, 2, 47, 39, 45, 54, 6][k - 24]
    else if k < 40 then [62, 31, 30, 28, 4, 53, 42, 44][k - 32]
    else if k < 48 then [14, 20, 34, 19, 49, 8, 27, 46][k - 40]
    else if k < 56 then [-1, -1, -1, -1, -1, -1, 56, 40][k - 48]
    else if k < 64 then [51, 63, 24, 48, 13, 29, 11, 41][k - 56]
    else if k < 72 then [1, 58, 17, 22, 18, 59, 26, 50][k - 64]
    else if k < 80 then [15, 12, 36, 16, 55, 57, 37, 3][k - 72]
    else -1
  }

  /** One row of a table, at its place. */
  ghost predicate RowAt(row: string, position: char -> int, start: nat) {
    |row| == 8 && forall r :: 0 <= r < 8 ==> position(row[r]) == start + r
  }

  /** Eight rows whose characters each know their own position make a table. */
  lemma RowsMakeTable(r0: string, r1: string, r2: string, r3: string, r4: string, r5: string, r6: string, r7: string,
                      position: char -> int)
    requires RowAt(r0, position, 0) && RowAt(r1, position, 8) && RowAt(r2, position, 16) && RowAt(r3, position, 24)
    requires RowAt(r4, position, 32) && RowAt(r5, position, 40) && RowAt(r6, position, 48) && RowAt(r7, position, 56)
    requires position('=') == position('\r') == position('\n') == -1
    ensures IsTable(r0 + r1 + r2 + r3 + r4 + r5 + r6 + r7)
    ensures forall i :: 0 <= i < 64 ==> position((r0 + r1 + r2 + r3 + r4 + r5 + r6 + r7)[i]) == i
  {
    var table := r0 + r1 + r2 + r3 + r4 + r5 + r6 + r7;
    forall i | 0 <= i < 64 ensures position(table[i]) == i {
      if i < 8 { assert table[i] == r0[i]; }
      else if i < 16 { assert table[i] == r1[i - 8]; }
      else if i < 24 { assert table[i] == r2[i - 16]; }
      else if i < 32 { assert table[i] == r3[i - 24]; }
      else if i < 40 { assert table[i] == r4[i - 32]; }
      else if i < 48 { assert table[i] == r5[i - 40]; }
      else if i < 56 { assert table[i] == r6[i - 48]; }
      else { assert table[i] == r7[i - 56]; }
    }
    forall i, j | 0 <= i < j < 64 ensures table[i] != table[j] {
      assert position(table[i]) != position(table[j]);
    }
  }

  lemma StandardRows0()
    ensures RowAt(STANDARD_0, StandardPosition, 0) && RowAt(STANDARD_1, StandardPosition, 8)
  {
  }

  lemma StandardRows2()
    ensures RowAt(STANDARD_2, StandardPosition, 16) && RowAt(STANDARD_3, StandardPosition, 24)
  {
  }

  lemma StandardRows4()
    ensures RowAt(STANDARD_4, StandardPosition, 32) && RowAt(STANDARD_5, StandardPosition, 40)
  {
  }

  lemma StandardRows6()
    ensures RowAt(STANDARD_6, StandardPosition, 48) && RowAt(STANDARD_7, StandardPosition, 56)
  {
  }

  lemma StandardIsTable()
    ensures IsTable(STANDARD) && forall i :: 0 <= i < 64 ==> StandardPosition(STANDARD[i]) == i
  {
    StandardRows0();
    StandardRows2();
    StandardRows4();
    StandardRows6();
    assert StandardPosition('=') == StandardPosition('\r') == StandardPosition('\n') == -1;
    hide StandardPosition;
    RowsMakeTable(STANDARD_0, STANDARD_1, STANDARD_2, STANDARD_3, STANDARD_4, STANDARD_5, STANDARD_6, STANDARD_7, StandardPosition);
  }

  lemma PrivateRows0()
    ensures RowAt(PRIVATE_0, PrivatePosition, 0) && RowAt(PRIVATE_1, PrivatePosition, 8)
  {
  }

  lemma PrivateRows2()
    ensures RowAt(PRIVATE_2, PrivatePosition, 16) && RowAt(PRIVATE_3, PrivatePosition, 24)
  {
  }

  lemma PrivateRows4()
    ensures RowAt(PRIVATE_4, PrivatePosition, 32) && RowAt(PRIVATE_5, PrivatePosition, 40)
  {
  }

  lemma PrivateRows6()
    ensures RowAt(PRIVATE_6, PrivatePosition, 48) && RowAt(PRIVATE_7, PrivatePosition, 56)
  {
  }

  lemma PrivateIsTable()
    ensures IsTable(PRIVATE) && forall i :: 0 <= i < 64 ==> PrivatePosition(PRIVATE[i]) == i
  {
    PrivateRows0();
    PrivateRows2();
    PrivateRows4();
    PrivateRows6();
    assert PrivatePosition('=') == PrivatePosition('\r') == PrivatePosition('\n') == -1;
    hide PrivatePosition;
    RowsMakeTable(PRIVATE_0, PRIVATE_1, PRIVATE_2, PRIVATE_3, PRIVATE_4, PRIVATE_5, PRIVATE_6, PRIVATE_7, PrivatePosition);
  }
}
