/** Parsing what was printed gives the options back. */
module CommandLineRoundTrip {
  import opened Text
  import opened Argv
  import opened RawTail
  import opened Quoting
  import opened Automation
  import opened BuildCommandLine

  // ---- The tokenizer reads the printed words ----

  /** Up to its end, `text` is exactly the arguments `args`, the last one not yet followed by a blank. */
  ghost predicate Reads(text: string, args: seq<string>) {
    args != [] &&
    var st := Run(Begin, text); st.ClosedAt(|args| - 1) && st.done + [st.Open()] == args
  }

  lemma ReadsOneMore(text: string, args: seq<string>, word: string)
    requires Reads(text, args)
    ensures Reads(text + SpacedWord(word), args + [word])
  {
    var st := Run(Begin, text);
    var q := Quote(word);
    QuoteReadsBack(args, word);
    BlankEnds(st, q);
    RunConcat(Begin, text, SpacedWord(word));
  }

  lemma BlankEnds(st: Scan, rest: string)
    requires st.Token? && !st.quoted
    ensures Run(st, " " + rest) == Run(Between(st.done + [st.Open()]), rest)
  {
    assert (" " + rest)[1..] == rest;
  }

  lemma ShiftWords(a: seq<string>, words: seq<string>)
    requires words != []
    ensures a + [words[0]] + words[1..] == a + words
  {
  }

  lemma {:induction false} ReadsMore(text: string, args: seq<string>, words: seq<string>)
    requires Reads(text, args)
    ensures Reads(text + Spaced(words), args + words)
    decreases |words|
  {
    if words == [] {
      assert text + Spaced(words) == text && args + words == args;
    } else {
      ReadsOneMore(text, args, words[0]);
      ReadsMore(text + SpacedWord(words[0]), args + [words[0]], words[1..]);
      Regroup(text, SpacedWord(words[0]), Spaced(words[1..]));
      ShiftWords(args, words);
    }
  }

  /** A quoted program path and quoted words are the program name and exactly those words. */
  lemma ReadsCommandLine(path: string, words: seq<string>) returns (name: string)
    requires '"' !in path && words != []
    ensures Reads(Quote(path) + Spaced(words), [name] + words)
  {
    name := ReadsProgram(path, words[0]);
    ReadsMore(Quote(path) + SpacedWord(words[0]), [name] + [words[0]], words[1..]);
    Regroup(Quote(path), SpacedWord(words[0]), Spaced(words[1..]));
    ShiftWords([name], words);
  }

  lemma ReadsProgram(path: string, word: string) returns (name: string)
    requires '"' !in path
    ensures Reads(Quote(path) + SpacedWord(word), [name] + [word])
  {
    QuotedProgramThenBlank(path);
    name :| Run(Begin, Quote(path) + " ") == Between([name]);
    RunConcat(Begin, Quote(path) + " ", Quote(word));
    QuoteReadsBack([name], word);
    Regroup(Quote(path), " ", Quote(word));
  }

  // ---- The parser steps over the printed words ----

  predicate At(argv: seq<string>, i: nat, words: seq<string>) {
    i + |words| <= |argv| && argv[i..i + |words|] == words
  }

  lemma AtConcat(argv: seq<string>, i: nat, a: seq<string>, b: seq<string>)
    requires At(argv, i, a + b)
    ensures At(argv, i, a) && At(argv, i + |a|, b)
  {
    var all := argv[i..i + |a + b|];
    assert all[..|a|] == a && all[|a|..] == b;
  }

  /** Arguments i to j are consumed by both passes of the parser, taking the progress from p to q. */
  ghost predicate Consumes(lower: string -> string, line: string, program: string, argv: seq<string>,
                           i: nat, p: Progress, j: nat, q: Progress) {
    && i <= j <= |argv|
    && TakeAll(lower, line, program, argv, i, p) == TakeAll(lower, line, program, argv, j, q)
    && HelpRequested(lower, argv, i) == HelpRequested(lower, argv, j)
  }

  function WithValue(p: Progress, name: string, value: string): Progress {
    if value == "" then p
    else p.(options := SetValue(p.options, Classify(name), value), seen := p.seen + {Classify(name)})
  }

  function WithSwitch(p: Progress, name: string, on: bool): Progress {
    if on then p.(options := SetFlag(p.options, Classify(name))) else p
  }

  lemma ConsumeValue(lower: string -> string, line: string, program: string, argv: seq<string>,
                     i: nat, p: Progress, name: string, value: string)
    requires FoldsCase(lower) && TakesValue(Classify(name)) && Classify(name) !in p.seen
    requires At(argv, i, Optional(name, value))
    ensures Consumes(lower, line, program, argv, i, p, i + |Optional(name, value)|, WithValue(p, name, value))
  {
    if value != "" {
      assert argv[i..i + 2][0] == name && argv[i..i + 2][1] == value;
      assert Take(lower, line, program, argv, i, p) == Continue(i + 2, WithValue(p, name, value));
    }
  }

  lemma ConsumeSwitch(lower: string -> string, line: string, program: string, argv: seq<string>,
                      i: nat, p: Progress, name: string, on: bool)
    requires FoldsCase(lower) && IsFlag(Classify(name)) && !Flag(p.options, Classify(name))
    requires At(argv, i, Switch(name, on))
    ensures Consumes(lower, line, program, argv, i, p, i + |Switch(name, on)|, WithSwitch(p, name, on))
  {
    if on {
      assert argv[i..i + 1][0] == name;
      assert Take(lower, line, program, argv, i, p) == Continue(i + 1, WithSwitch(p, name, on));
    }
  }

  /** The options that the words alone say, without the application's own arguments. */
  function FromWords(o: AutomationOptions, event: string): AutomationOptions {
    DEFAULT_OPTIONS.(
      enabled := true, profileName := o.profileName, targetPath := o.targetPath,
      applicationName := o.applicationName, workingDirectory := o.workingDirectory,
      elevated := o.elevated, packaged := o.packaged, shortcut := o.shortcut, bootstrapEventName := event)
  }

  lemma ClassifyNames()
    ensures Classify("--auto") == Auto && Classify("--profile") == Profile && Classify("--run") == RunTarget
    ensures Classify("--elevated") == Elevated && Classify("--packaged") == Packaged && Classify("--shortcut") == Shortcut
    ensures Classify("--app-name") == ApplicationName && Classify("--working-directory") == Directory
    ensures Classify("--bootstrap-event") == BootstrapEvent && Classify("--") == Dashes
  {
  }

  lemma ConsumeRequired(lower: string -> string, line: string, program: string, argv: seq<string>,
                        o: AutomationOptions, rest: seq<string>) returns (p: Progress)
    requires FoldsCase(lower) && o.profileName != "" && o.targetPath != ""
    requires At(argv, 1, ["--auto"] + (["--profile", o.profileName] + (["--run", o.targetPath] + rest)))
    ensures Consumes(lower, line, program, argv, 1, START, 6, p) && At(argv, 6, rest)
    ensures p.options == DEFAULT_OPTIONS.(enabled := true, profileName := o.profileName, targetPath := o.targetPath)
    ensures p.unknown == "" && p.seen == {Profile, RunTarget}
  {
    hide Classify, TakeAll, HelpRequested, FoldsCase, At;
    ClassifyNames();
    var w1 := ["--run", o.targetPath] + rest;
    var w0 := ["--profile", o.profileName] + w1;
    AtConcat(argv, 1, Switch("--auto", true), w0);
    ConsumeSwitch(lower, line, program, argv, 1, START, "--auto", true);
    var p1 := WithSwitch(START, "--auto", true);
    AtConcat(argv, 2, Optional("--profile", o.profileName), w1);
    ConsumeValue(lower, line, program, argv, 2, p1, "--profile", o.profileName);
    var p2 := WithValue(p1, "--profile", o.profileName);
    AtConcat(argv, 4, Optional("--run", o.targetPath), rest);
    ConsumeValue(lower, line, program, argv, 4, p2, "--run", o.targetPath);
    p := WithValue(p2, "--run", o.targetPath);
  }

  lemma ConsumeNames(lower: string -> string, line: string, program: string, argv: seq<string>,
                     o: AutomationOptions, rest: seq<string>, i: nat, p: Progress) returns (j: nat, q: Progress)
    requires FoldsCase(lower) && p.seen == {Profile, RunTarget}
    requires p.options.applicationName == p.options.workingDirectory == ""
    requires At(argv, i, Optional("--app-name", o.applicationName) + (Optional("--working-directory", o.workingDirectory) + rest))
    ensures j == i + |Optional("--app-name", o.applicationName)| + |Optional("--working-directory", o.workingDirectory)|
    ensures Consumes(lower, line, program, argv, i, p, j, q) && At(argv, j, rest)
    ensures q.options == p.options.(applicationName := o.applicationName, workingDirectory := o.workingDirectory)
    ensures q.unknown == p.unknown && q.seen >= p.seen && BootstrapEvent !in q.seen
  {
    hide Classify, TakeAll, HelpRequested, FoldsCase, At;
    ClassifyNames();
    AtConcat(argv, i, Optional("--app-name", o.applicationName), Optional("--working-directory", o.workingDirectory) + rest);
    ConsumeValue(lower, line, program, argv, i, p, "--app-name", o.applicationName);
    q := WithValue(p, "--app-name", o.applicationName);
    j := i + |Optional("--app-name", o.applicationName)|;
    AtConcat(argv, j, Optional("--working-directory", o.workingDirectory), rest);
    ConsumeValue(lower, line, program, argv, j, q, "--working-directory", o.workingDirectory);
    q := WithValue(q, "--working-directory", o.workingDirectory);
    j := j + |Optional("--working-directory", o.workingDirectory)|;
  }

  lemma ConsumeSwitches(lower: string -> string, line: string, program: string, argv: seq<string>,
                        o: AutomationOptions, rest: seq<string>, i: nat, p: Progress) returns (j: nat, q: Progress)
    requires FoldsCase(lower)
    requires !p.options.elevated && !p.options.packaged && !p.options.shortcut
    requires At(argv, i, Switch("--elevated", o.elevated) +
                         (Switch("--packaged", o.packaged) + (Switch("--shortcut", o.shortcut) + rest)))
    ensures j == i + |Switch("--elevated", o.elevated)| + |Switch("--packaged", o.packaged)| + |Switch("--shortcut", o.shortcut)|
    ensures Consumes(lower, line, program, argv, i, p, j, q) && At(argv, j, rest)
    ensures q == p.(options := p.options.(elevated := o.elevated, packaged := o.packaged, shortcut := o.shortcut))
  {
    hide Classify, TakeAll, HelpRequested, FoldsCase, At;
    ClassifyNames();
    AtConcat(argv, i, Switch("--elevated", o.elevated), Switch("--packaged", o.packaged) + (Switch("--shortcut", o.shortcut) + rest));
    ConsumeSwitch(lower, line, program, argv, i, p, "--elevated", o.elevated);
    q := WithSwitch(p, "--elevated", o.elevated);
    j := i + |Switch("--elevated", o.elevated)|;
    AtConcat(argv, j, Switch("--packaged", o.packaged), Switch("--shortcut", o.shortcut) + rest);
    ConsumeSwitch(lower, line, program, argv, j, q, "--packaged", o.packaged);
    q := WithSwitch(q, "--packaged", o.packaged);
    j := j + |Switch("--packaged", o.packaged)|;
    AtConcat(argv, j, Switch("--shortcut", o.shortcut), rest);
    ConsumeSwitch(lower, line, program, argv, j, q, "--shortcut", o.shortcut);
    q := WithSwitch(q, "--shortcut", o.shortcut);
    j := j + |Switch("--shortcut", o.shortcut)|;
  }

  lemma ConsumeWords(lower: string -> string, line: string, program: string, argv: seq<string>,
                     o: AutomationOptions, event: string) returns (p: Progress)
    requires FoldsCase(lower) && o.profileName != "" && o.targetPath != ""
    requires At(argv, 1, Words(o, event))
    ensures Consumes(lower, line, program, argv, 1, START, 1 + |Words(o, event)|, p)
    ensures p.options == FromWords(o, event) && p.unknown == "" && Profile in p.seen && RunTarget in p.seen
  {
    hide Classify, TakeAll, HelpRequested, FoldsCase, At, Optional, Switch, TakesValue, IsFlag;
    var w7 := Optional("--bootstrap-event", event);
    var w4 := Switch("--elevated", o.elevated) + (Switch("--packaged", o.packaged) + (Switch("--shortcut", o.shortcut) + w7));
    var w2 := Optional("--app-name", o.applicationName) + (Optional("--working-directory", o.workingDirectory) + w4);
    assert Words(o, event) == ["--auto"] + (["--profile", o.profileName] + (["--run", o.targetPath] + w2));
    var length := |Words(o, event)|;
    assert length == 5 + |w2|;
    hide Words;
    p := ConsumeRequired(lower, line, program, argv, o, w2);
    var i;
    i, p := ConsumeNames(lower, line, program, argv, o, w4, 6, p);
    i, p := ConsumeSwitches(lower, line, program, argv, o, w7, i, p);
    ClassifyNames();
    ConsumeValue(lower, line, program, argv, i, p, "--bootstrap-event", event);
    p := WithValue(p, "--bootstrap-event", event);
  }

  /** What reading the printed line back must give. */
  function ReadBack(o: AutomationOptions, event: string): AutomationOptions {
    FromWords(o, event).(initialArguments := SkipBlanks(ApplicationArguments(o)))
  }

  function CommandLine(path: string, o: AutomationOptions, event: string): string {
    Quote(path) + " " + Build(o, event)
  }

  /** The printed line as the text the lemmas above read. */
  lemma CommandLineText(path: string, o: AutomationOptions, event: string)
    ensures CommandLine(path, o, event) == Quote(path) + Spaced(Words(o, event)) + Tail(o)
  {
    Regroup(Quote(path), " ", Build(o, event));
    Regroup(Quote(path), Spaced(Words(o, event)), Tail(o));
  }

  lemma ParseAtEnd(lower: string -> string, line: string, program: string, p: Progress)
    requires |Arguments(line, program)| >= 1
    requires Consumes(lower, line, program, Arguments(line, program), 1, START, |Arguments(line, program)|, p)
    requires p.options.enabled && p.unknown == "" && Profile in p.seen && RunTarget in p.seen
    ensures Parse(lower, line, program) == Parsed(p.options)
  {
    hide Classify, RawTailAfter, Arguments, Take;
  }

  lemma ArgumentsOfWords(path: string, words: seq<string>, program: string)
    requires '"' !in path && words != []
    ensures var argv := Arguments(Quote(path) + Spaced(words), program);
            |argv| == 1 + |words| && At(argv, 1, words)
  {
    hide Quote, Spaced, Run;
    var name := ReadsCommandLine(path, words);
    var argv := Arguments(Quote(path) + Spaced(words), program);
    assert argv == [name] + words;
    assert argv[1..1 + |words|] == words;
  }

  lemma ParseWithoutTail(lower: string -> string, path: string, program: string, o: AutomationOptions, event: string)
    requires FoldsCase(lower) && '"' !in path && o.profileName != "" && o.targetPath != ""
    requires Tail(o) == ""
    ensures Parse(lower, CommandLine(path, o, event), program) == Parsed(ReadBack(o, event))
  {
    var words := Words(o, event);
    assert words[0] == "--auto" && ApplicationArguments(o) == "";
    hide Spaced, Classify, TakeAll, Take, HelpRequested, Parse, Words, Quote, RawTailAfter, Run, CommandLine,
         FoldsCase, Arguments, At, ApplicationArguments;
    var line := CommandLine(path, o, event);
    CommandLineText(path, o, event);
    assert line == Quote(path) + Spaced(words);
    ArgumentsOfWords(path, words, program);
    var p := ConsumeWords(lower, line, program, Arguments(line, program), o, event);
    ParseAtEnd(lower, line, program, p);
  }

  lemma ApplicationArgumentsStart(o: AutomationOptions)
    ensures ApplicationArguments(o) != "" ==> IsBlank(ApplicationArguments(o)[0])
  {
    hide Quote;
  }

  /** The text up to and including "--", and what the tokenizer has read there. */
  function Head(path: string, o: AutomationOptions, event: string): string {
    Quote(path) + Spaced(Words(o, event) + ["--"])
  }

  lemma CommandLineHead(path: string, o: AutomationOptions, event: string)
    requires Tail(o) != ""
    ensures CommandLine(path, o, event) == Head(path, o, event) + ApplicationArguments(o)
  {
    hide Quote, Spaced, Words, ApplicationArguments, CommandLine;
    var words := Words(o, event);
    SpacedConcat(words, ["--"]);
    SpacedOne("--");
    CommandLineText(path, o, event);
    Regroup(Quote(path), Spaced(words), " --");
    Regroup(Quote(path) + Spaced(words), " --", ApplicationArguments(o));
  }

  /** The position where "--" ends, and the arguments before it. */
  lemma TailPosition(path: string, program: string, o: AutomationOptions, event: string) returns (p: nat)
    requires '"' !in path && Tail(o) != ""
    ensures var line, index := CommandLine(path, o, event), 1 + |Words(o, event)|;
            && IsEnd(line, index, p) && line[p..] == ApplicationArguments(o)
            && index < |Arguments(line, program)| && Arguments(line, program)[index] == "--"
            && At(Arguments(line, program), 1, Words(o, event))
  {
    hide Quote, Spaced, ApplicationArguments, Words, CommandLine, Run, Tail, Finish, Arguments;
    var line, words, rest := CommandLine(path, o, event), Words(o, event), ApplicationArguments(o);
    CommandLineHead(path, o, event);
    ApplicationArgumentsStart(o);
    p := |Head(path, o, event)|;
    assert line[..p] == Head(path, o, event) && line[p..] == rest;
    var name := ReadsCommandLine(path, words + ["--"]);
    var args := [name] + (words + ["--"]);
    assert IsEnd(line, |args| - 1, p);
    EndGivesPrefix(line, program, |args| - 1, p);
    PrefixAt(args, Arguments(line, program), name, words);
  }

  lemma PrefixAt(args: seq<string>, argv: seq<string>, name: string, words: seq<string>)
    requires args == [name] + (words + ["--"]) && args <= argv
    ensures 1 + |words| < |argv| && argv[1 + |words|] == "--" && At(argv, 1, words)
  {
    assert args[1..1 + |words|] == words;
  }

  lemma ParseAtDashes(lower: string -> string, line: string, program: string, index: nat, p: Progress, tail: string)
    requires lower("--") == "--" && Classify("--").Dashes?
    requires index < |Arguments(line, program)| && Arguments(line, program)[index] == "--"
    requires Consumes(lower, line, program, Arguments(line, program), 1, START, index, p)
    requires p.options.enabled && p.unknown == "" && Profile in p.seen && RunTarget in p.seen
    requires RawTailAfter(line, index, program) == Some(tail) && p.options.initialArguments == ""
    ensures Parse(lower, line, program) == Parsed(p.options.(initialArguments := tail))
  {
    hide Classify, RawTailAfter, Arguments, TakeOption;
  }

  lemma ParseWithTail(lower: string -> string, path: string, program: string, o: AutomationOptions, event: string)
    requires FoldsCase(lower) && '"' !in path && o.profileName != "" && o.targetPath != ""
    requires Tail(o) != ""
    ensures Parse(lower, CommandLine(path, o, event), program) == Parsed(ReadBack(o, event))
  {
    ClassifyNames();
    assert lower("--") == "--";
    hide Classify, TakeAll, Take, HelpRequested, Parse, Words, Spaced, Quote, RawTailAfter, Arguments, Run, CommandLine;
    var line, index := CommandLine(path, o, event), 1 + |Words(o, event)|;
    var end := TailPosition(path, program, o, event);
    var argv := Arguments(line, program);
    TailAtEnd(line, index, program, end);
    var p := ConsumeWords(lower, line, program, argv, o, event);
    ParseAtDashes(lower, line, program, index, p, SkipBlanks(ApplicationArguments(o)));
  }

  /**
   The round trip: whatever quotes, backslashes, blanks or option-like text the values hold, the
   parser accepts the printed line and returns the profile, target, name, directory, flags and event
   unchanged, and the application's arguments as one raw text without its leading blanks.
   */
  lemma ParseReadsBuild(lower: string -> string, path: string, program: string, o: AutomationOptions, event: string)
    requires FoldsCase(lower) && '"' !in path
    requires o.profileName != "" && o.targetPath != ""
    ensures Parse(lower, CommandLine(path, o, event), program) == Parsed(ReadBack(o, event))
  {
    if Tail(o) == "" {
      ParseWithoutTail(lower, path, program, o, event);
    } else {
      ParseWithTail(lower, path, program, o, event);
    }
  }

  // ---- When nothing at all changes ----

  lemma PlainTail(o: AutomationOptions)
    requires o.targetArguments == []
    ensures SkipBlanks(ApplicationArguments(o)) == SkipBlanks(o.initialArguments)
  {
    assert Spaced(o.targetArguments) == "";
    if o.initialArguments != "" {
      var a := ApplicationArguments(o);
      assert a == " " + o.initialArguments && a[0] == ' ' && a[1..] == o.initialArguments;
    }
  }

  /** The options come back unchanged exactly when their arguments are one raw text without a leading blank. */
  lemma ReadBackIsExact(o: AutomationOptions, event: string)
    ensures ReadBack(o, event) == o.(enabled := true, showHelp := false, bootstrapEventName := event)
            <==> o.targetArguments == [] && (o.initialArguments == "" || !IsBlank(o.initialArguments[0]))
  {
    SkipBlanksTrims(o.initialArguments);
    if o.targetArguments == [] {
      PlainTail(o);
    }
  }

  /** What the parser can return: profile and target are given, and all arguments are one raw text. */
  ghost predicate Settled(p: Progress) {
    && !p.options.showHelp && p.options.targetArguments == []
    && (Profile in p.seen ==> p.options.profileName != "")
    && (RunTarget in p.seen ==> p.options.targetPath != "")
  }

  lemma {:induction false} TakeAllSettles(lower: string -> string, line: string, program: string,
                                          argv: seq<string>, i: nat, p: Progress)
    requires i <= |argv| && Settled(p)
    ensures var next := TakeAll(lower, line, program, argv, i, p); next.Stop? ==> Settled(next.progress)
    decreases |argv| - i
  {
    hide Classify, RawTailAfter;
    if i < |argv| {
      var next := Take(lower, line, program, argv, i, p);
      if next.Continue? {
        TakeAllSettles(lower, line, program, argv, next.index, next.progress);
      }
    }
  }

  lemma TakeAllStops(lower: string -> string, line: string, program: string,
                     argv: seq<string>, i: nat, p: Progress)
    requires i <= |argv|
    ensures !TakeAll(lower, line, program, argv, i, p).Continue?
    decreases |argv| - i
  {
    hide Classify, RawTailAfter, TakeOption;
    if i < |argv| {
      var next := Take(lower, line, program, argv, i, p);
      if next.Continue? {
        TakeAllStops(lower, line, program, argv, next.index, next.progress);
      }
    }
  }

  lemma ParsedShape(lower: string -> string, line: string, program: string)
    ensures var outcome := Parse(lower, line, program);
            outcome.Parsed? ==>
              && outcome.options.targetArguments == []
              && (outcome.options.enabled && !outcome.options.showHelp ==>
                    outcome.options.profileName != "" && outcome.options.targetPath != "")
  {
    hide TakeAll, HelpRequested;
    var argv := Arguments(line, program);
    ArgumentsNonEmpty(line, program);
    TakeAllSettles(lower, line, program, argv, 1, START);
    TakeAllStops(lower, line, program, argv, 1, START);
  }

  /**
   Printing what any line was parsed to and parsing it again changes nothing but leading blanks of
   the arguments, and from then on nothing at all.
   */
  lemma ReparseIsStable(lower: string -> string, line: string, path: string, program: string)
    requires FoldsCase(lower) && '"' !in path
    requires Parse(lower, line, program).Parsed?
    requires var o := Parse(lower, line, program).options; o.enabled && !o.showHelp
    ensures var o := Parse(lower, line, program).options;
            var q := o.(initialArguments := SkipBlanks(o.initialArguments));
            && Parse(lower, CommandLine(path, o, o.bootstrapEventName), program) == Parsed(q)
            && Parse(lower, CommandLine(path, q, q.bootstrapEventName), program) == Parsed(q)
  {
    ParsedShape(lower, line, program);
    hide Parse, CommandLine, ApplicationArguments;
    var o := Parse(lower, line, program).options;
    var q := o.(initialArguments := SkipBlanks(o.initialArguments));
    ParseReadsBuild(lower, path, program, o, o.bootstrapEventName);
    PlainTail(o);
    ParseReadsBuild(lower, path, program, q, q.bootstrapEventName);
    PlainTail(q);
    SkipBlanksTrims(o.initialArguments);
  }
}
