/** Strings as the Windows string classes use them: blanks, trimming, runs of backslashes. */
module Text {

  datatype Option<+T> = None | Some(value: T)

  lemma Regroup<T>(a: seq<T>, b: seq<T>, c: seq<T>)
    ensures a + b + c == a + (b + c)
  {
  }

  predicate IsBlank(c: char) {
    c == ' ' || c == '\t'
  }

  /** The text after its leading blanks. */
  function SkipBlanks(s: string): string {
    if s != "" && IsBlank(s[0]) then SkipBlanks(s[1..]) else s
  }

  /** Only blanks are skipped, and all of them at the front. */
  lemma {:induction false} SkipBlanksTrims(s: string)
    ensures var t := SkipBlanks(s);
            && (t != "" ==> !IsBlank(t[0]))
            && |t| <= |s| && t == s[|s| - |t|..]
            && forall i :: 0 <= i < |s| - |t| ==> IsBlank(s[i])
    decreases |s|
  {
    if s != "" && IsBlank(s[0]) {
      SkipBlanksTrims(s[1..]);
      var t := SkipBlanks(s);
      forall i | 0 <= i < |s| - |t| ensures IsBlank(s[i]) {
        if i > 0 {
          assert s[i] == s[1..][i - 1];
        }
      }
    }
  }

  /** The text without the spaces at its two ends. */
  function Trimmed(space: char -> bool, s: string): string {
    if s == "" then ""
    else if space(s[0]) then Trimmed(space, s[1..])
    else if space(s[|s| - 1]) then Trimmed(space, s[..|s| - 1])
    else s
  }

  /** Only spaces are cut off, and no end is left with one. */
  lemma {:induction false} TrimmedIs(space: char -> bool, s: string) returns (i: nat, j: nat)
    ensures i <= j <= |s| && Trimmed(space, s) == s[i..j]
    ensures i < j ==> !space(s[i]) && !space(s[j - 1])
    ensures forall k :: 0 <= k < i || j <= k < |s| ==> space(s[k])
    decreases |s|
  {
    if s == "" {
      i, j := 0, 0;
    } else if space(s[0]) {
      i, j := TrimmedIs(space, s[1..]);
      assert s[1..][i..j] == s[i + 1..j + 1];
      forall k | 0 <= k < i + 1 || j + 1 <= k < |s| ensures space(s[k]) {
        assert k > 0 ==> s[k] == s[1..][k - 1];
      }
      i, j := i + 1, j + 1;
    } else if space(s[|s| - 1]) {
      i, j := TrimmedIs(space, s[..|s| - 1]);
      assert s[..|s| - 1][i..j] == s[i..j];
    } else {
      i, j := 0, |s|;
    }
  }

  /** One text, a space and the other text; nothing is put between if one of them is empty. */
  ghost predicate JoinedBySpace(first: string, second: string, all: string) {
    && (first == "" ==> all == second) && (second == "" ==> all == first)
    && (first != "" && second != "" ==>
          |all| == |first| + 1 + |second| && all[..|first|] == first && all[|first|] == ' ' && all[|first| + 1..] == second)
  }

  predicate AreDigits(s: string) {
    forall i | 0 <= i < |s| :: '0' <= s[i] <= '9'
  }

  /** The number that decimal digits stand for. */
  function ValueOf(s: string): nat
    requires AreDigits(s)
  {
    if s == "" then 0
    else
      assert forall i :: 0 <= i < |s| - 1 ==> s[..|s| - 1][i] == s[i];
      10 * ValueOf(s[..|s| - 1]) + (s[|s| - 1] - '0') as nat
  }

  /** The decimal digits of a number, with zeros in front only to reach the width. */
  ghost predicate IsNumber(s: string, width: nat, n: nat) {
    AreDigits(s) && ValueOf(s) == n && |s| >= width && (|s| > width ==> s[0] != '0')
  }

  lemma {:induction false} NotZero(s: string)
    requires AreDigits(s) && s != "" && s[0] != '0'
    ensures ValueOf(s) >= 1
    decreases |s|
  {
    if |s| > 1 {
      NotZero(s[..|s| - 1]);
    }
  }

  lemma LongNumber(s: string, n: nat)
    requires IsNumber(s, 1, n)
    ensures |s| > 1 <==> n >= 10
    ensures IsNumber(if |s| > 1 then s[..|s| - 1] else "0", 1, n / 10)
  {
    var front := s[..|s| - 1];
    assert |s| == 1 ==> front == "";
    if |s| > 1 {
      NotZero(front);
    } else {
      assert ValueOf(front) == 0;
      assert "0"[..0] == "";
    }
  }

  /** A number has one such notation. */
  lemma {:induction false} SameDigits(a: string, b: string, n: nat)
    requires IsNumber(a, 1, n) && IsNumber(b, 1, n)
    ensures a == b
    decreases |a|
  {
    LongNumber(a, n);
    LongNumber(b, n);
    var x, y := a[..|a| - 1], b[..|b| - 1];
    if n >= 10 {
      SameDigits(x, y, n / 10);
    } else {
      assert x == "" && y == "";
    }
    assert a == x + [a[|a| - 1]] && b == y + [b[|b| - 1]];
  }

  lemma AppendDigit(s: string, width: nat, n: nat)
    requires IsNumber(s, if width > 0 then width - 1 else 0, n / 10) && (n >= 10 || width > 0 || s == "") && (n > 0 || width > 0)
    ensures IsNumber(s + [(n % 10) as char + '0'], width, n)
  {
    var c := (n % 10) as char + '0';
    assert (s + [c])[..|s|] == s;
    assert s == "" && width == 0 ==> n < 10;
  }

  /** The same text but for case. */
  predicate SameLetters(lower: char -> char, a: string, b: string) {
    |a| == |b| && forall i | 0 <= i < |a| :: lower(a[i]) == lower(b[i])
  }

  lemma SameLowered(lower: char -> char, a: string, b: string)
    ensures Lower(lower, a) == Lower(lower, b) <==> SameLetters(lower, a, b)
  {
    var x, y := Lower(lower, a), Lower(lower, b);
    if x == y {
      assert |a| == |x| == |y| == |b|;
      forall i | 0 <= i < |a| ensures lower(a[i]) == lower(b[i]) {
        assert x[i] == y[i];
      }
    }
  }

  function Slashes(n: nat): (s: string)
    ensures |s| == n && forall i :: 0 <= i < n ==> s[i] == '\\'
  {
    seq(n, _ => '\\')
  }

  /** Lower-casing, character by character. */
  function Lower(lower: char -> char, s: string): (t: string)
    ensures |t| == |s| && forall i :: 0 <= i < |s| ==> t[i] == lower(s[i])
  {
    seq(|s|, i requires 0 <= i < |s| => lower(s[i]))
  }
}
