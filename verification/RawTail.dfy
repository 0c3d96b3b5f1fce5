/**
 Finding the untouched text after "--".  The program never interprets quotes itself: it cuts the
 line at candidate blanks, appends a marker argument, and asks the tokenizer whether exactly the
 arguments up to "--" and then the marker come back.
 */
module RawTail {
  import opened Text
  import opened Argv

  const MARKER := "PL_RAW_TAIL_MARKER"

  /** The offsets that are tried: the first blank of each run of blanks, and the end of the line. */
  predicate IsCandidate(line: string, offset: nat)
    requires offset <= |line|
  {
    (offset == |line| || IsBlank(line[offset])) && (offset == 0 || !IsBlank(line[offset - 1]))
  }

  function ProbeLine(line: string, offset: nat): string
    requires offset <= |line|
  {
    line[..offset] + " " + MARKER
  }

  /** What the tokenizer has to answer for the probe at `offset`. */
  predicate Matches(line: string, argv: seq<string>, index: nat, offset: nat, program: string)
    requires index < |argv| && offset <= |line|
  {
    Arguments(ProbeLine(line, offset), program) == argv[..index + 1] + [MARKER]
  }

  /** The first candidate offset, from `offset` on, whose probe matches. */
  function Search(line: string, argv: seq<string>, index: nat, offset: nat, program: string): Option<string>
    requires index < |argv|
    decreases |line| + 1 - offset
  {
    if offset > |line| then None
    else if IsCandidate(line, offset) && Matches(line, argv, index, offset, program) then
      Some(SkipBlanks(line[offset..]))
    else Search(line, argv, index, offset + 1, program)
  }

  function RawTailAfter(line: string, index: int, program: string): Option<string> {
    var argv := Arguments(line, program);
    if index < 1 || index >= |argv| || argv[index] != "--" then None
    else Search(line, argv, index, 0, program)
  }

  lemma MarkerIsPlain()
    ensures forall c :: c in MARKER ==> IsPlain(c)
  {
  }

  /** What the tokenizer makes of a prefix of the line followed by the marker. */
  lemma ProbeArguments(line: string, offset: nat, program: string)
    requires offset <= |line|
    ensures Arguments(ProbeLine(line, offset), program) ==
            AnswerWith(Run(Begin, line[..offset]), MARKER)
  {
    MarkerIsPlain();
    assert ProbeLine(line, offset) == line[..offset] + (" " + MARKER);
    RunConcat(Begin, line[..offset], " " + MARKER);
    WordArguments(Run(Begin, line[..offset]), MARKER, program);
  }

  /** The arguments after reading a blank and a plain word in scanner state `st`. */
  function AnswerWith(st: Scan, word: string): seq<string> {
    match st
    case Begin => ["", word]
    case FirstQuoted(t) => [t + (" " + word)]
    case FirstPlain(t) => [t, word]
    case Between(d) => d + [word]
    case Token(d, _, _, q) =>
      if q then d + [st.Open() + (" " + word)] else d + [st.Open(), word]
  }

  lemma WordArguments(st: Scan, word: string, program: string)
    requires word != "" && forall c :: c in word ==> IsPlain(c)
    ensures Finish(Run(st, " " + word), program) == AnswerWith(st, word)
  {
    assert (" " + word)[0] == ' ' && (" " + word)[1..] == word;
    assert Run(st, " " + word) == Run(Step(st, ' '), word);
    match st
    case FirstQuoted(t) =>
      RunFirstQuoted(t + " ", word);
      assert t + " " + word == t + (" " + word);
    case Token(d, t, n, q) =>
      if q {
        RunPlain(d, st.Open() + " ", true, word);
        assert st.Open() + " " + word + Slashes(0) == st.Open() + (" " + word);
      } else {
        WordEnds(d + [st.Open()], word, program);
        assert d + [st.Open()] + [word] == d + [st.Open(), word];
      }
    case Begin => WordEnds([""], word, program);
    case FirstPlain(t) => WordEnds([t], word, program);
    case Between(d) => WordEnds(d, word, program);
  }

  lemma WordEnds(d: seq<string>, word: string, program: string)
    requires word != "" && forall c :: c in word ==> IsPlain(c)
    ensures Finish(Run(Between(d), word), program) == d + [word]
  {
    RunPlainToken(d, word);
    assert word + Slashes(0) == word;
  }

  /** A candidate offset never lies inside a stretch between arguments, except right after the program name. */
  lemma CandidateBetween(line: string, offset: nat)
    requires offset <= |line| && IsCandidate(line, offset)
    ensures var st := Run(Begin, line[..offset]); st.Between? ==> |st.done| == 1
  {
    if offset > 0 {
      RunNext(Begin, line, offset - 1);
    }
  }

  /** A probe matches exactly where argument `index` ends. */
  lemma MatchIsEnd(line: string, index: nat, offset: nat, program: string)
    requires 1 <= index < |Arguments(line, program)|
    requires offset <= |line| && IsCandidate(line, offset)
    ensures Matches(line, Arguments(line, program), index, offset, program) <==> IsEnd(line, index, offset)
  {
    var argv := Arguments(line, program);
    var st := Run(Begin, line[..offset]);
    ProbeArguments(line, offset, program);
    CandidateBetween(line, offset);
    if IsEnd(line, index, offset) {
      EndGivesPrefix(line, program, index, offset);
      assert argv[..index + 1] == st.done + [st.Open()];
    }
    if Matches(line, argv, index, offset, program) {
      var probe := argv[..index + 1] + [MARKER];
      assert probe[|probe| - 1] == MARKER;
    }
  }

  /** The end of an argument other than the program name is always among the offsets tried. */
  lemma EndIsCandidate(line: string, index: nat, p: nat)
    requires IsEnd(line, index, p)
    ensures IsCandidate(line, p)
  {
    if p > 0 {
      RunNext(Begin, line, p - 1);
    }
  }

  lemma {:induction false} SearchFinds(line: string, index: nat, offset: nat, p: nat, program: string)
    requires 1 <= index < |Arguments(line, program)|
    requires offset <= p && IsEnd(line, index, p)
    ensures Search(line, Arguments(line, program), index, offset, program) == Some(SkipBlanks(line[p..]))
    decreases p - offset
  {
    hide Matches, Arguments, Run, ProbeLine;
    EndIsCandidate(line, index, p);
    if IsCandidate(line, offset) {
      MatchIsEnd(line, index, offset, program);
    }
    if offset < p {
      if IsEnd(line, index, offset) {
        EndIsUnique(line, index, offset, p);
      }
      SearchFinds(line, index, offset + 1, p, program);
    }
  }

  lemma {:induction false} SearchFails(line: string, index: nat, offset: nat, program: string)
    requires 1 <= index < |Arguments(line, program)|
    requires forall p: nat :: !IsEnd(line, index, p)
    ensures Search(line, Arguments(line, program), index, offset, program) == None
    decreases |line| + 1 - offset
  {
    hide Matches, Arguments, Run, ProbeLine;
    if offset <= |line| {
      if IsCandidate(line, offset) {
        MatchIsEnd(line, index, offset, program);
      }
      SearchFails(line, index, offset + 1, program);
    }
  }

  /**
   Soundness: a tail is returned only for an argument "--", and it is the text after the one
   position where that argument ends.
   */
  lemma TailIsAfterArgument(line: string, index: int, program: string) returns (p: nat)
    requires RawTailAfter(line, index, program).Some?
    ensures 1 <= index < |Arguments(line, program)| && Arguments(line, program)[index] == "--"
    ensures IsEnd(line, index, p)
    ensures RawTailAfter(line, index, program) == Some(SkipBlanks(line[p..]))
    ensures forall q: nat :: q <= |line| && IsCandidate(line, q) ==>
              (Matches(line, Arguments(line, program), index, q, program) <==> q == p)
  {
    if forall q: nat :: !IsEnd(line, index, q) {
      SearchFails(line, index, 0, program);
    }
    p :| IsEnd(line, index, p);
    SearchFinds(line, index, 0, p, program);
    forall q: nat | q <= |line| && IsCandidate(line, q)
      ensures Matches(line, Arguments(line, program), index, q, program) <==> q == p
    {
      MatchIsEnd(line, index, q, program);
      if IsEnd(line, index, q) {
        EndIsUnique(line, index, p, q);
      }
    }
  }

  lemma TailAtEnd(line: string, index: nat, program: string, p: nat)
    requires 1 <= index < |Arguments(line, program)| && Arguments(line, program)[index] == "--"
    requires IsEnd(line, index, p)
    ensures RawTailAfter(line, index, program) == Some(SkipBlanks(line[p..]))
  {
    SearchFinds(line, index, 0, p, program);
  }

  /** Completeness: the search fails for a "--" exactly when that argument leaves a quote open. */
  lemma TailFoundUnlessQuoteOpen(line: string, index: int, program: string)
    requires 1 <= index < |Arguments(line, program)| && Arguments(line, program)[index] == "--"
    ensures RawTailAfter(line, index, program).None? <==> Run(Begin, line).OpenQuoteAt(index)
  {
    assert line[..0] == "";
    var q := EndExists(line, program, index, 0);
    if Run(Begin, line).OpenQuoteAt(index) {
      forall p: nat ensures !IsEnd(line, index, p) {
        OpenQuoteHasNoEnd(line, index, p);
      }
      SearchFails(line, index, 0, program);
    } else {
      SearchFinds(line, index, 0, q, program);
    }
  }

  /** One call of the tokenizer; it reports nothing when the system cannot allocate the result. */
  method CommandLineToArgv(line: string, program: string, succeeds: bool) returns (argv: Option<seq<string>>)
    ensures argv == if succeeds then Some(Arguments(line, program)) else None
  {
    argv := if succeeds then Some(Arguments(line, program)) else None;
  }

  /** `works` says which calls of the tokenizer succeed, counted from 0. */
  method RawTailAfterArgument(line: string, index: int, program: string, works: nat -> bool)
    returns (tail: Option<string>)
    ensures tail.Some? ==> tail == RawTailAfter(line, index, program)
    ensures (forall n: nat :: works(n)) ==> tail == RawTailAfter(line, index, program)
  {
    hide Arguments;
    if index < 1 { return None; }
    var answer := CommandLineToArgv(line, program, works(0));
    if answer.None? { return None; }
    var argv := answer.value;
    if index >= |argv| || argv[index] != "--" { return None; }
    var calls: nat := 1;
    for offset := 0 to |line| + 1
      invariant RawTailAfter(line, index, program) == Search(line, argv, index, offset, program)
    {
      if offset < |line| && line[offset] != ' ' && line[offset] != '\t' { continue; }
      if offset > 0 && (line[offset - 1] == ' ' || line[offset - 1] == '\t') { continue; }
      var probe := line[..offset] + " " + MARKER;
      var probed := CommandLineToArgv(probe, program, works(calls));
      if probed.None? { return None; }
      calls := calls + 1;
      var probeArgv := probed.value;
      var matched := |probeArgv| == index + 2;
      if matched {
        for i := 0 to index + 1
          invariant matched <==> probeArgv[..i] == argv[..i]
        {
          assert argv[..i + 1] == argv[..i] + [argv[i]];
          assert probeArgv[..i + 1] == probeArgv[..i] + [probeArgv[i]];
          if probeArgv[i] != argv[i] {
            matched := false;
            break;
          }
        }
      }
      if matched { matched := probeArgv[index + 1] == MARKER; }
      assert |probeArgv| == index + 2 ==> probeArgv == probeArgv[..index + 1] + [probeArgv[index + 1]];
      if matched {
        return Some(SkipBlanks(line[offset..]));
      }
    }
    return None;
  }
}
