/**
 The system tokenizer, CommandLineToArgvW, as its documented rules state it: the program name
 ends at the closing quote or the first blank and knows no escapes; later arguments are separated
 by spaces and tabs; 2n backslashes before a quote give n backslashes and toggle quoting, 2n+1
 give n backslashes and a literal quote, other backslashes stand for themselves.  The rules are
 written as an automaton that reads one character at a time.
 */
module Argv {
  import opened Text

  datatype Scan =
    | Begin                                                  // nothing read yet
    | FirstQuoted(text: string)                              // inside a quoted program name
    | FirstPlain(text: string)                               // inside an unquoted program name
    | Between(done: seq<string>)                             // after a finished argument
    | Token(done: seq<string>, text: string, slashes: nat, quoted: bool)
  {
    /** The arguments that are already complete. */
    function Done(): seq<string> {
      if Between? || Token? then done else []
    }

    /** The argument being read, with its pending backslashes taken literally. */
    function Open(): string
      requires Token?
    {
      text + Slashes(slashes)
    }

    /** Inside argument `index`, outside quotes: a blank or the end of the line ends it here. */
    predicate ClosedAt(index: nat) {
      Token? && |done| == index && !quoted
    }

    predicate OpenQuoteAt(index: nat) {
      Token? && |done| == index && quoted
    }
  }

  function TokenStep(done: seq<string>, text: string, slashes: nat, quoted: bool, c: char): Scan {
    if c == '\\' then Token(done, text, slashes + 1, quoted)
    else if c == '"' then
      if slashes % 2 == 0 then Token(done, text + Slashes(slashes / 2), 0, !quoted)
      else Token(done, text + Slashes(slashes / 2) + "\"", 0, quoted)
    else if IsBlank(c) && !quoted then Between(done + [text + Slashes(slashes)])
    else Token(done, text + Slashes(slashes) + [c], 0, quoted)
  }

  function Step(st: Scan, c: char): Scan {
    match st
    case Begin => if c == '"' then FirstQuoted("") else if IsBlank(c) then Between([""]) else FirstPlain([c])
    case FirstQuoted(t) => if c == '"' then Between([t]) else FirstQuoted(t + [c])
    case FirstPlain(t) => if IsBlank(c) then Between([t]) else FirstPlain(t + [c])
    case Between(d) => if IsBlank(c) then st else TokenStep(d, "", 0, false, c)
    case Token(d, t, n, q) => TokenStep(d, t, n, q, c)
  }

  function Run(st: Scan, s: string): Scan
    decreases |s|
  {
    if s == "" then st else Run(Step(st, s[0]), s[1..])
  }

  /** An empty line yields the path of the running program. */
  function Finish(st: Scan, program: string): seq<string> {
    match st
    case Begin => [program]
    case FirstQuoted(t) => [t]
    case FirstPlain(t) => [t]
    case Between(d) => d
    case Token(d, _, _, _) => d + [st.Open()]
  }

  function Arguments(line: string, program: string): seq<string> {
    Finish(Run(Begin, line), program)
  }

  lemma {:induction false} RunConcat(st: Scan, a: string, b: string)
    ensures Run(st, a + b) == Run(Run(st, a), b)
    decreases |a|
  {
    if a == "" {
      assert a + b == b;
    } else {
      assert (a + b)[1..] == a[1..] + b;
      RunConcat(Step(st, a[0]), a[1..], b);
    }
  }

  /** Reading one more character of a line is one more step. */
  lemma RunNext(st: Scan, s: string, p: nat)
    requires p < |s|
    ensures Run(st, s[..p + 1]) == Step(Run(st, s[..p]), s[p])
  {
    assert s[..p + 1] == s[..p] + [s[p]];
    RunConcat(st, s[..p], [s[p]]);
    assert [s[p]][1..] == "";
  }

  lemma RunSplit(st: Scan, s: string, p: nat)
    requires p <= |s|
    ensures Run(st, s) == Run(Run(st, s[..p]), s[p..])
  {
    assert s == s[..p] + s[p..];
    RunConcat(st, s[..p], s[p..]);
  }

  /** Completed arguments are never revised by what follows. */
  lemma {:induction false} DonePrefix(st: Scan, s: string, program: string)
    ensures st.Done() <= Run(st, s).Done()
    ensures st.Done() <= Finish(Run(st, s), program)
    decreases |s|
  {
    if s != "" {
      DonePrefix(Step(st, s[0]), s[1..], program);
    }
  }

  predicate IsPlain(c: char) {
    !IsBlank(c) && c != '"' && c != '\\'
  }

  /** Text without blanks, quotes or backslashes stands for itself. */
  lemma {:induction false} RunPlain(d: seq<string>, t: string, q: bool, s: string)
    requires forall c :: c in s ==> IsPlain(c)
    ensures Run(Token(d, t, 0, q), s) == Token(d, t + s, 0, q)
    decreases |s|
  {
    if s == "" {
      assert t + s == t;
    } else {
      assert Step(Token(d, t, 0, q), s[0]) == Token(d, t + [s[0]], 0, q) by {
        assert t + Slashes(0) == t && IsPlain(s[0]);
      }
      RunPlain(d, t + [s[0]], q, s[1..]);
      assert t + [s[0]] + s[1..] == t + s;
    }
  }

  /** A quoted program name runs up to the next quote. */
  lemma {:induction false} RunFirstQuoted(t: string, s: string)
    requires '"' !in s
    ensures Run(FirstQuoted(t), s) == FirstQuoted(t + s)
    decreases |s|
  {
    if s == "" {
      assert t + s == t;
    } else {
      RunFirstQuoted(t + [s[0]], s[1..]);
      assert t + [s[0]] + s[1..] == t + s;
    }
  }

  lemma RunPlainToken(d: seq<string>, s: string)
    requires s != "" && forall c :: c in s ==> IsPlain(c)
    ensures Run(Between(d), s) == Token(d, s, 0, false)
  {
    assert Step(Between(d), s[0]) == Token(d, [s[0]], 0, false) by {
      assert "" + Slashes(0) + [s[0]] == [s[0]];
      assert IsPlain(s[0]);
    }
    RunPlain(d, [s[0]], false, s[1..]);
    assert [s[0]] + s[1..] == s;
  }

  /** A run of backslashes is held back until the next character decides what it means. */
  lemma {:induction false} RunSlashes(d: seq<string>, t: string, n: nat, q: bool, k: nat)
    ensures Run(Token(d, t, n, q), Slashes(k)) == Token(d, t, n + k, q)
    decreases k
  {
    if k > 0 {
      assert Slashes(k)[1..] == Slashes(k - 1);
      RunSlashes(d, t, n + 1, q, k - 1);
    }
  }

  // ---- Where an argument ends ----

  /** Position p of the line is the end of argument `index`. */
  ghost predicate IsEnd(line: string, index: nat, p: nat) {
    p <= |line| && (p == |line| || IsBlank(line[p])) && Run(Begin, line[..p]).ClosedAt(index)
  }

  lemma EndGivesPrefix(line: string, program: string, index: nat, p: nat)
    requires IsEnd(line, index, p)
    ensures var st := Run(Begin, line[..p]); st.done + [st.Open()] <= Arguments(line, program)
  {
    var st := Run(Begin, line[..p]);
    RunSplit(Begin, line, p);
    if p < |line| {
      assert Run(st, line[p..]) == Run(Step(st, line[p]), line[p..][1..]);
      DonePrefix(Step(st, line[p]), line[p..][1..], program);
    } else {
      assert line[p..] == "";
    }
  }

  /** An argument ends at one position only. */
  lemma EndIsUnique(line: string, index: nat, p: nat, q: nat)
    requires IsEnd(line, index, p) && IsEnd(line, index, q)
    ensures p == q
  {
    if p < q {
      EndsOnce(line, index, p, q);
    } else if q < p {
      EndsOnce(line, index, q, p);
    }
  }

  lemma EndsOnce(line: string, index: nat, p: nat, q: nat)
    requires p < q <= |line| && IsEnd(line, index, p)
    ensures |Run(Begin, line[..q]).Done()| > index
  {
    RunNext(Begin, line, p);
    var next := line[..q][p + 1..];
    RunSplit(Begin, line[..q], p + 1);
    assert line[..q][..p + 1] == line[..p + 1];
    DonePrefix(Run(Begin, line[..p + 1]), next, "");
  }

  /** Every argument after the program name ends somewhere, unless it leaves a quote open to the end. */
  lemma {:induction false} EndExists(line: string, program: string, index: nat, p: nat) returns (q: nat)
    requires 1 <= index < |Arguments(line, program)|
    requires p <= |line| && |Run(Begin, line[..p]).Done()| <= index
    ensures IsEnd(line, index, q) || Run(Begin, line).OpenQuoteAt(index)
    decreases |line| - p
  {
    var st := Run(Begin, line[..p]);
    q := p;
    if p == |line| {
      assert line[..p] == line;
    } else if !(st.ClosedAt(index) && IsBlank(line[p])) {
      RunNext(Begin, line, p);
      q := EndExists(line, program, index, p + 1);
    }
  }

  /** A quote left open at the end of the line belongs to an argument that has no end. */
  lemma OpenQuoteHasNoEnd(line: string, index: nat, p: nat)
    requires Run(Begin, line).OpenQuoteAt(index)
    ensures !IsEnd(line, index, p)
  {
    if IsEnd(line, index, p) {
      assert line[..|line|] == line;
      if p < |line| {
        EndsOnce(line, index, p, |line|);
      }
    }
  }
}
