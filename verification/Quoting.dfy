/** Writing one argument so that the tokenizer reads it back unchanged. */
module Quoting {
  import opened Text
  import opened Argv

  predicate NeedsQuotes(argument: string) {
    exists i :: 0 <= i < |argument| && argument[i] in {' ', '\t', '"'}
  }

  /** What is still to be written inside the quotes, with `pending` backslashes held back. */
  function Escape(rest: string, pending: nat): string
    decreases |rest|
  {
    if rest == "" then Slashes(2 * pending) + "\""
    else if rest[0] == '\\' then Escape(rest[1..], pending + 1)
    else if rest[0] == '"' then Slashes(2 * pending + 1) + "\"" + Escape(rest[1..], 0)
    else Slashes(pending) + [rest[0]] + Escape(rest[1..], 0)
  }

  function Quote(argument: string): string {
    if argument == "" then "\"\""
    else if !NeedsQuotes(argument) then argument
    else "\"" + Escape(argument, 0)
  }

  /** Quotes are put around an argument only where they are needed. */
  lemma QuotedIfNeeded(argument: string)
    ensures Quote(argument) == argument <==> argument != "" && forall c :: c in argument ==> c !in {' ', '\t', '"'}
    ensures Quote(argument) != argument ==>
              var quoted := Quote(argument);
              |quoted| >= 2 && quoted[0] == '"' && quoted[|quoted| - 1] == '"'
  {
    EscapeCloses(argument, 0);
    if argument != "" && argument[0] == '"' {
      assert NeedsQuotes(argument);
      LongerQuoted(argument, 0);
    }
    if i :| 0 <= i < |argument| && argument[i] in {' ', '\t', '"'} {
      assert argument[i] in argument;
      LongerQuoted(argument, 0);
    }
  }

  lemma {:induction false} EscapeCloses(rest: string, pending: nat)
    ensures var s := Escape(rest, pending); s != "" && s[|s| - 1] == '"'
    decreases |rest|
  {
    if rest != "" {
      EscapeCloses(rest[1..], if rest[0] == '\\' then pending + 1 else 0);
    }
  }

  lemma {:induction false} LongerQuoted(rest: string, pending: nat)
    ensures |Escape(rest, pending)| > |rest| + pending
    decreases |rest|
  {
    if rest != "" {
      LongerQuoted(rest[1..], if rest[0] == '\\' then pending + 1 else 0);
    }
  }

  method AppendSlashes(text: string, count: nat) returns (extended: string)
    ensures extended == text + Slashes(count)
  {
    extended := text;
    for j := 0 to count
      invariant extended == text + Slashes(j)
    {
      assert Slashes(j + 1) == Slashes(j) + ['\\'];
      extended := extended + ['\\'];
    }
  }

  method QuoteCommandLineArgument(argument: string) returns (quoted: string)
    ensures quoted == Quote(argument)
  {
    if argument == "" { return "\"\""; }
    if !(exists i :: 0 <= i < |argument| && argument[i] in {' ', '\t', '"'}) { return argument; }
    quoted := "\"";
    var backslashes: nat := 0;
    assert argument[0..] == argument;
    for i := 0 to |argument|
      invariant quoted + Escape(argument[i..], backslashes) == "\"" + Escape(argument, 0)
    {
      var c := argument[i];
      assert argument[i..][0] == c && argument[i..][1..] == argument[i + 1..];
      ghost var before, rest := quoted, Escape(argument[i + 1..], 0);
      if c == '\\' {
        backslashes := backslashes + 1;
      } else if c == '"' {
        quoted := AppendSlashes(quoted, backslashes * 2 + 1);
        quoted := quoted + "\"";
        assert quoted + rest == before + (Slashes(2 * backslashes + 1) + "\"" + rest);
        backslashes := 0;
      } else {
        quoted := AppendSlashes(quoted, backslashes);
        quoted := quoted + [c];
        assert quoted + rest == before + (Slashes(backslashes) + [c] + rest);
        backslashes := 0;
      }
    }
    assert argument[|argument|..] == "";
    quoted := AppendSlashes(quoted, backslashes * 2);
    quoted := quoted + "\"";
  }

  lemma RegroupFour(a: string, b: string, c: string, d: string)
    ensures a + b + c + d == a + b + (c + d) && a + (b + c) == a + b + c
  {
  }

  lemma SlashMoves(pending: nat, rest: string)
    requires rest != "" && rest[0] == '\\'
    ensures Slashes(pending + 1) + rest[1..] == Slashes(pending) + rest
  {
  }

  /** Inside quotes, the escaped text is read back as the argument and closes the quotes. */
  lemma {:induction false} RunEscape(d: seq<string>, t: string, rest: string, pending: nat)
    ensures Run(Token(d, t, 0, true), Escape(rest, pending)) == Token(d, t + Slashes(pending) + rest, 0, false)
    decreases |rest|
  {
    hide Run;
    if rest == "" {
      RunClosing(d, t, pending);
    } else if rest[0] == '\\' {
      RunEscape(d, t, rest[1..], pending + 1);
      SlashMoves(pending, rest);
      RegroupFour(t, Slashes(pending + 1), rest[1..], "");
      RegroupFour(t, Slashes(pending), rest, "");
    } else {
      RunEscapedChar(d, t, rest[0], pending, Escape(rest[1..], 0));
      var t' := t + Slashes(pending) + [rest[0]];
      RunEscape(d, t', rest[1..], 0);
      assert t' + Slashes(0) == t';
      assert rest == [rest[0]] + rest[1..];
      RegroupFour(t, Slashes(pending), [rest[0]], rest[1..]);
    }
  }

  lemma RunClosing(d: seq<string>, t: string, pending: nat)
    ensures Run(Token(d, t, 0, true), Escape("", pending)) == Token(d, t + Slashes(pending) + "", 0, false)
  {
    RunSlashesThen(Token(d, t, 0, true), 2 * pending, '"', "");
    assert Escape("", pending) == Slashes(2 * pending) + (['"'] + "");
    ClosingStep(d, t, pending);
    hide Escape, Run, TokenStep;
    assert t + Slashes(pending) + "" == t + Slashes(pending);
  }

  lemma ClosingStep(d: seq<string>, t: string, pending: nat)
    ensures Run(TokenStep(d, t, 2 * pending, true, '"'), "") == Token(d, t + Slashes(pending), 0, false)
  {
  }

  /** One escaped character, its backslashes in front. */
  lemma RunEscapedChar(d: seq<string>, t: string, c: char, pending: nat, tail: string)
    requires c != '\\'
    ensures var n := if c == '"' then 2 * pending + 1 else pending;
            Run(Token(d, t, 0, true), Slashes(n) + [c] + tail) ==
            Run(Token(d, t + Slashes(pending) + [c], 0, true), tail)
  {
    var n := if c == '"' then 2 * pending + 1 else pending;
    RegroupFour(Slashes(n), [c], tail, "");
    RunSlashesThen(Token(d, t, 0, true), n, c, tail);
    assert c == '"' ==> n % 2 == 1 && n / 2 == pending;
    hide Run;
  }

  lemma RunSlashesThen(st: Scan, n: nat, c: char, tail: string)
    requires st.Token? && st.slashes == 0
    ensures Run(st, Slashes(n) + ([c] + tail)) == Run(TokenStep(st.done, st.text, n, st.quoted, c), tail)
  {
    RunConcat(st, Slashes(n), [c] + tail);
    RunSlashes(st.done, st.text, 0, st.quoted, n);
    assert ([c] + tail)[1..] == tail;
  }

  /** Text without blanks or quotes stands for itself, backslashes included. */
  lemma {:induction false} RunUnquoted(d: seq<string>, t: string, n: nat, s: string)
    requires forall c :: c in s ==> !IsBlank(c) && c != '"'
    ensures var st := Run(Token(d, t, n, false), s); st.ClosedAt(|d|) && st.done == d && st.Open() == t + Slashes(n) + s
    decreases |s|
  {
    if s == "" {
      assert t + Slashes(n) + s == t + Slashes(n);
    } else if s[0] == '\\' {
      RunUnquoted(d, t, n + 1, s[1..]);
      assert Slashes(n + 1) + s[1..] == Slashes(n) + s;
      assert t + Slashes(n + 1) + s[1..] == t + (Slashes(n + 1) + s[1..]);
      assert t + Slashes(n) + s == t + (Slashes(n) + s);
    } else {
      assert s[0] in s;
      var t' := t + Slashes(n) + [s[0]];
      RunUnquoted(d, t', 0, s[1..]);
      assert t' + Slashes(0) + s[1..] == t + Slashes(n) + s;
    }
  }

  /**
   The round trip for one argument, whatever characters it holds: read between two arguments, the
   quoted text is one further argument equal to the original, and it leaves no quote open.
   */
  lemma QuoteReadsBack(d: seq<string>, argument: string)
    ensures var st := Run(Between(d), Quote(argument));
            st.ClosedAt(|d|) && st.done == d && st.Open() == argument
  {
    if argument == "" {
      assert Quote(argument)[1..] == "\"" && "\""[1..] == "";
      assert "" + Slashes(0) == "";
    } else if NeedsQuotes(argument) {
      assert Quote(argument)[1..] == Escape(argument, 0);
      assert "" + Slashes(0) == "";
      RunEscape(d, "", argument, 0);
      assert "" + Slashes(0) + argument == argument;
      assert argument + Slashes(0) == argument;
    } else {
      forall c | c in argument ensures !IsBlank(c) && c != '"' {
        var i :| 0 <= i < |argument| && argument[i] == c;
      }
      RunUnquoted(d, "", 0, argument);
      assert "" + Slashes(0) + argument == argument;
      assert argument[0] in argument;
      assert TokenStep(d, "", 0, false, argument[0]) == Step(Between(d), argument[0]);
      assert Run(Token(d, "", 0, false), argument) == Run(Between(d), argument);
    }
  }

  /** Followed by a blank, the quoted text is one finished argument. */
  lemma QuoteThenBlank(d: seq<string>, argument: string)
    ensures Run(Between(d), Quote(argument) + " ") == Between(d + [argument])
  {
    QuoteReadsBack(d, argument);
    RunConcat(Between(d), Quote(argument), " ");
    assert " "[1..] == "";
  }

  /** As the program name, quoting works for every path without a quote character. */
  lemma QuotedProgramThenBlank(path: string)
    requires '"' !in path
    ensures exists name :: Run(Begin, Quote(path) + " ") == Between([name])
  {
    var q := Quote(path);
    RunConcat(Begin, q, " ");
    assert " "[1..] == "";
    if path == "" {
      assert q[1..] == "\"" && "\""[1..] == "";
      assert Run(Begin, q + " ") == Between([""]);
    } else if NeedsQuotes(path) {
      EscapeWithoutQuotes(path, 0);
      var body := Escape(path, 0)[..|Escape(path, 0)| - 1];
      assert q[1..] == body + "\"";
      RunConcat(FirstQuoted(""), body, "\"");
      RunFirstQuoted("", body);
      assert "\""[1..] == "";
      assert Run(Begin, q + " ") == Between(["" + body]);
    } else {
      forall c | c in path ensures !IsBlank(c) {
        var i :| 0 <= i < |path| && path[i] == c;
      }
      assert path[0] in path;
      RunProgramPlain([path[0]], path[1..]);
      assert Run(Begin, q + " ") == Between([[path[0]] + path[1..]]);
    }
  }

  lemma {:induction false} EscapeWithoutQuotes(rest: string, pending: nat)
    requires '"' !in rest
    ensures var e := Escape(rest, pending); e != "" && e[|e| - 1] == '"' && '"' !in e[..|e| - 1]
    decreases |rest|
  {
    if rest == "" {
      assert Escape(rest, pending)[..2 * pending] == Slashes(2 * pending);
    } else if rest[0] == '\\' {
      EscapeWithoutQuotes(rest[1..], pending + 1);
    } else {
      EscapeWithoutQuotes(rest[1..], 0);
      var e := Escape(rest[1..], 0);
      var head := Slashes(pending) + [rest[0]];
      assert Escape(rest, pending) == head + e;
      assert (head + e)[..|head + e| - 1] == head + e[..|e| - 1];
      assert '"' !in head;
    }
  }

  lemma {:induction false} RunProgramPlain(t: string, s: string)
    requires forall c :: c in s ==> !IsBlank(c)
    ensures Run(FirstPlain(t), s) == FirstPlain(t + s)
    decreases |s|
  {
    if s == "" {
      assert t + s == t;
    } else {
      assert s[0] in s;
      RunProgramPlain(t + [s[0]], s[1..]);
      assert t + [s[0]] + s[1..] == t + s;
    }
  }
}
