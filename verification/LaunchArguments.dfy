/** What an application reads of the arguments that are typed, printed, stored and joined for it. */
module LaunchArguments {
  import opened Text
  import opened Argv
  import opened Quoting
  import opened Automation
  import opened BuildCommandLine

  /** The arguments that the tokenizer finds in a text after other arguments. */
  function ArgumentsIn(text: string): seq<string> {
    Finish(Run(Between([]), text), "")
  }

  /** The same state with other arguments before it. */
  function Behind(d: seq<string>, st: Scan): Scan
    requires st.Between? || st.Token?
  {
    match st
    case Between(done) => Between(d + done)
    case Token(done, text, slashes, quoted) => Token(d + done, text, slashes, quoted)
  }

  lemma {:induction false} RunBehind(d: seq<string>, st: Scan, s: string)
    requires st.Between? || st.Token?
    ensures Run(st, s).Between? || Run(st, s).Token?
    ensures Run(Behind(d, st), s) == Behind(d, Run(st, s))
    decreases |s|
  {
    if s != "" {
      StepBehind(d, st, s[0]);
      RunBehind(d, Step(st, s[0]), s[1..]);
    }
  }

  lemma StepBehind(d: seq<string>, st: Scan, c: char)
    requires st.Between? || st.Token?
    ensures Step(st, c).Between? || Step(st, c).Token?
    ensures Step(Behind(d, st), c) == Behind(d, Step(st, c))
  {
    if st.Token? {
      var word := st.text + Slashes(st.slashes);
      assert d + st.done + [word] == d + (st.done + [word]);
    }
  }

  /** A quote is open at the end of the text. */
  predicate LeavesQuoteOpen(text: string) {
    Run(Between([]), text).Token? && Run(Between([]), text).quoted
  }

  /** An argument that is being read only becomes longer. */
  lemma {:induction false} OnlyGrows(st: Scan, s: string)
    requires st.Token?
    ensures var words := Finish(Run(st, s), ""); |words| > |st.done| && |words[|st.done|]| >= |st.text|
    decreases |s|
  {
    if s != "" {
      var next := Step(st, s[0]);
      if next.Token? {
        OnlyGrows(next, s[1..]);
      } else {
        DonePrefix(next, s[1..], "");
        assert next.done <= Finish(Run(next, s[1..]), "");
      }
    }
  }

  /** Typed arguments and a raw tail behind them are read one after the other exactly if the typed ones leave no quote open. */
  lemma JoinedAreRead(typed: string, tail: string, all: string)
    requires JoinedBySpace(typed, tail, all)
    ensures typed == "" || tail == "" ==> ArgumentsIn(all) == ArgumentsIn(typed) + ArgumentsIn(tail)
    ensures typed != "" && tail != "" ==> (ArgumentsIn(all) == ArgumentsIn(typed) + ArgumentsIn(tail) <==> !LeavesQuoteOpen(typed))
  {
    var st, words := Run(Between([]), typed), ArgumentsIn(typed);
    RunBehind([], Between([]), typed);
    if typed != "" && tail != "" {
      assert all == typed + (" " + tail);
      RunConcat(Between([]), typed, " " + tail);
      assert (" " + tail)[0] == ' ' && (" " + tail)[1..] == tail;
      if LeavesQuoteOpen(typed) {
        OnlyGrows(Step(st, ' '), tail);
        assert |words[|st.done|]| < |ArgumentsIn(all)[|st.done|]|;
      } else {
        assert Step(st, ' ') == Between(words);
        ReadAfter(words, tail);
      }
    }
  }

  lemma ReadAfter(words: seq<string>, tail: string)
    ensures Finish(Run(Between(words), tail), "") == words + ArgumentsIn(tail)
  {
    RunBehind(words, Between([]), tail);
    assert words + [] == words;
    var last := Run(Between([]), tail);
    if last.Token? {
      assert words + last.done + [last.Open()] == words + (last.done + [last.Open()]);
    }
  }

  // ---- Printed arguments ----

  /** After an argument that is not in quotes, or after blanks. */
  predicate AtBlank(st: Scan) {
    st.Between? || (st.Token? && !st.quoted)
  }

  lemma OneIsRead(st: Scan, word: string)
    requires AtBlank(st)
    ensures AtBlank(Run(st, SpacedWord(word)))
    ensures Finish(Run(st, SpacedWord(word)), "") == Finish(st, "") + [word]
  {
    var q := Quote(word);
    assert (" " + q)[0] == ' ' && (" " + q)[1..] == q;
    assert Step(st, ' ') == Between(Finish(st, ""));
    QuoteReadsBack(Finish(st, ""), word);
    hide Quote;
  }

  lemma SpacedFirst(words: seq<string>)
    ensures words == [] ==> Spaced(words) == ""
    ensures words != [] ==> Spaced(words) == SpacedWord(words[0]) + Spaced(words[1..])
  {
  }

  lemma NothingIsRead(st: Scan)
    ensures Run(st, "") == st
  {
  }

  /** Printed arguments are read as they were before printing, after whatever has been read. */
  lemma {:induction false} PrintedAreRead(st: Scan, words: seq<string>)
    requires AtBlank(st)
    ensures Finish(Run(st, Spaced(words)), "") == Finish(st, "") + words
    decreases |words|
  {
    hide *;
    SpacedFirst(words);
    var before := Finish(st, "");
    if words == [] {
      NothingIsRead(st);
      assert before + [] == before;
    } else {
      var first, rest := SpacedWord(words[0]), words[1..];
      RunConcat(st, first, Spaced(rest));
      OneIsRead(st, words[0]);
      PrintedAreRead(Run(st, first), rest);
      assert before + [words[0]] + rest == before + words;
    }
  }

  lemma {:induction false} BlanksAreSkipped(s: string)
    ensures ArgumentsIn(SkipBlanks(s)) == ArgumentsIn(s)
    decreases |s|
  {
    if s != "" && IsBlank(s[0]) {
      BlanksAreSkipped(s[1..]);
    }
  }

  lemma AfterBlank(s: string)
    ensures ArgumentsIn(" " + s) == ArgumentsIn(s)
  {
    assert (" " + s)[0] == ' ' && (" " + s)[1..] == s;
  }

  lemma SpacedAreRead(words: seq<string>)
    ensures ArgumentsIn(Spaced(words)) == words
  {
    hide Spaced, Run;
    NothingIsRead(Between([]));
    PrintedAreRead(Between([]), words);
    assert [] + words == words;
  }

  /** The separate arguments without the first blank. */
  lemma SpacedTail(words: seq<string>) returns (tail: string)
    requires words != []
    ensures Spaced(words) == " " + tail && tail != "" && ArgumentsIn(tail) == words
  {
    SpacedFirst(words);
    SpacedAreRead(words);
    hide Spaced, Quote;
    tail := Spaced(words)[1..];
    assert Spaced(words) == " " + tail;
    AfterBlank(tail);
  }

  lemma JoinedText(typed: string, tail: string)
    ensures typed != "" && tail != "" ==> JoinedBySpace(typed, tail, typed + (" " + tail))
    ensures " " + typed + (" " + tail) == " " + (typed + (" " + tail))
  {
  }

  /**
   The application reads the typed arguments and then the separate ones, each as it was given, exactly
   if the typed ones leave no quote open, or there is nothing to join.
   */
  lemma ApplicationReads(o: AutomationOptions)
    ensures ArgumentsIn(SkipBlanks(ApplicationArguments(o))) == ArgumentsIn(o.initialArguments) + o.targetArguments <==>
      o.initialArguments == "" || o.targetArguments == [] || !LeavesQuoteOpen(o.initialArguments)
  {
    var typed, words, all := o.initialArguments, o.targetArguments, ApplicationArguments(o);
    assert all == (if typed != "" then " " + typed else "") + Spaced(words);
    assert typed == "" ==> ArgumentsIn(typed) == [] && all == Spaced(words);
    assert words == [] ==> Spaced(words) == "" && (typed != "" ==> all == " " + typed);
    hide *;
    BlanksAreSkipped(all);
    SpacedAreRead(words);
    AfterBlank(typed);
    if typed == "" {
      assert [] + words == words;
    } else if words == [] {
      assert ArgumentsIn(typed) + [] == ArgumentsIn(typed);
    } else {
      var tail := SpacedTail(words);
      JoinedText(typed, tail);
      JoinedAreRead(typed, tail, typed + (" " + tail));
      AfterBlank(typed + (" " + tail));
    }
  }
}
