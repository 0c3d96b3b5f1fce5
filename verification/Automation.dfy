/** The automation options: reading them from a command line and writing them back. */
module Automation {
  import opened Text
  import opened Argv
  import opened RawTail

  datatype AutomationOptions = AutomationOptions(
    enabled: bool,
    showHelp: bool,
    profileName: string,
    targetPath: string,
    applicationName: string,
    initialArguments: string,
    workingDirectory: string,
    elevated: bool,
    packaged: bool,
    shortcut: bool,
    targetArguments: seq<string>,
    bootstrapEventName: string)

  const DEFAULT_OPTIONS :=
    AutomationOptions(false, false, "", "", "", "", "", false, false, false, [], "")

  datatype ParseError =
    | TokenizerFailed
    | BoundaryNotFound
    | Duplicate(option: string)
    | MissingValue(option: string)
    | EmptyValue(option: string)
    | UnknownOption(option: string)
    | ProfileAndRunRequired

  datatype ParseOutcome = Parsed(options: AutomationOptions) | Rejected(error: ParseError)

  /** The spellings the program knows, in lower case. */
  datatype Name =
    | Dashes | Auto | Profile | RunTarget | Elevated | Packaged | Shortcut
    | Initial | ApplicationName | Directory | BootstrapEvent | Help | Other

  function Classify(name: string): Name {
    if name == "--" then Dashes
    else if name == "--auto" then Auto
    else if name == "--profile" then Profile
    else if name == "--run" then RunTarget
    else if name == "--elevated" then Elevated
    else if name == "--packaged" then Packaged
    else if name == "--shortcut" then Shortcut
    else if name == "--arguments" then Initial
    else if name == "--app-name" then ApplicationName
    else if name == "--working-directory" then Directory
    else if name == "--bootstrap-event" then BootstrapEvent
    else if name == "/?" || name == "-?" || name == "--help" then Help
    else Other
  }

  predicate IsFlag(n: Name) {
    n.Auto? || n.Elevated? || n.Packaged? || n.Shortcut?
  }

  predicate TakesValue(n: Name) {
    n.Profile? || n.RunTarget? || n.Initial? || n.Directory? || n.ApplicationName? || n.BootstrapEvent?
  }

  /**
   The lower-casing in use is the system's own and depends on the locale; all that is needed of it
   is that it is idempotent and leaves the program's option names alone.
   */
  ghost predicate FoldsCase(lower: string -> string) {
    && (forall s {:trigger lower(lower(s))} :: lower(lower(s)) == lower(s))
    && (forall s :: !Classify(s).Other? ==> lower(s) == s)
  }

  // ---- What parsing means ----

  function Flag(o: AutomationOptions, n: Name): bool {
    match n
    case Auto => o.enabled
    case Elevated => o.elevated
    case Packaged => o.packaged
    case _ => o.shortcut
  }

  function SetFlag(o: AutomationOptions, n: Name): AutomationOptions {
    match n
    case Auto => o.(enabled := true)
    case Elevated => o.(elevated := true)
    case Packaged => o.(packaged := true)
    case _ => o.(shortcut := true)
  }

  function SetValue(o: AutomationOptions, n: Name, value: string): AutomationOptions {
    match n
    case Profile => o.(profileName := value)
    case RunTarget => o.(targetPath := value)
    case Initial => o.(initialArguments := value)
    case Directory => o.(workingDirectory := value)
    case ApplicationName => o.(applicationName := value)
    case _ => o.(bootstrapEventName := value)
  }

  /** Options so far, the value options already given, and the last unknown option before --auto. */
  datatype Progress = Progress(options: AutomationOptions, seen: set<Name>, unknown: string)

  datatype Next = Continue(index: nat, progress: Progress) | Stop(progress: Progress) | Reject(error: ParseError)

  function AppendTail(initial: string, tail: string): string {
    if initial != "" && tail != "" then initial + " " + tail else initial + tail
  }

  /** What one argument other than "--" does. */
  function TakeOption(argv: seq<string>, i: nat, name: string, p: Progress): (next: Next)
    requires i < |argv|
    ensures next.Continue? ==> i < next.index <= |argv|
  {
    var n := Classify(name);
    if IsFlag(n) then
      if Flag(p.options, n) then Reject(Duplicate(name))
      else Continue(i + 1, p.(options := SetFlag(p.options, n)))
    else if TakesValue(n) then
      if n in p.seen then Reject(Duplicate(name))
      else if i + 1 >= |argv| then Reject(MissingValue(name))
      else if argv[i + 1] == "" then Reject(EmptyValue(name))
      else Continue(i + 2, p.(options := SetValue(p.options, n, argv[i + 1]), seen := p.seen + {n}))
    else if p.options.enabled then Reject(UnknownOption(name))
    else if "--" <= name then Continue(i + 1, p.(unknown := name))
    else Continue(i + 1, p)
  }

  function Take(lower: string -> string, line: string, program: string, argv: seq<string>, i: nat, p: Progress): Next
    requires i < |argv|
  {
    var name := lower(argv[i]);
    if Classify(name).Dashes? then
      match RawTailAfter(line, i, program)
      case None => Reject(BoundaryNotFound)
      case Some(tail) =>
        Stop(p.(options := p.options.(initialArguments := AppendTail(p.options.initialArguments, tail))))
    else TakeOption(argv, i, name, p)
  }

  function TakeAll(lower: string -> string, line: string, program: string, argv: seq<string>, i: nat, p: Progress): Next
    requires i <= |argv|
    decreases |argv| - i
  {
    if i == |argv| then Stop(p)
    else
      match Take(lower, line, program, argv, i, p)
      case Continue(j, q) => TakeAll(lower, line, program, argv, j, q)
      case other => other
  }

  function HelpRequested(lower: string -> string, argv: seq<string>, i: nat): bool
    decreases |argv| - i
  {
    if i >= |argv| then false
    else
      var n := Classify(lower(argv[i]));
      if n.Dashes? then false
      else if TakesValue(n) then HelpRequested(lower, argv, i + 2)
      else n.Help? || HelpRequested(lower, argv, i + 1)
  }

  function Conclude(p: Progress): ParseOutcome {
    if !p.options.enabled then Parsed(p.options)
    else if p.unknown != "" then Rejected(UnknownOption(p.unknown))
    else if Profile !in p.seen || RunTarget !in p.seen then Rejected(ProfileAndRunRequired)
    else Parsed(p.options)
  }

  const START := Progress(DEFAULT_OPTIONS, {}, "")

  lemma ArgumentsNonEmpty(line: string, program: string)
    ensures |Arguments(line, program)| >= 1
  {
    if line != "" {
      assert Run(Begin, line) == Run(Step(Begin, line[0]), line[1..]);
      LeavesBegin(Step(Begin, line[0]), line[1..], program);
    }
  }

  lemma {:induction false} LeavesBegin(st: Scan, s: string, program: string)
    requires st.Between? ==> st.done != []
    ensures Finish(Run(st, s), program) != []
    decreases |s|
  {
    if s != "" {
      LeavesBegin(Step(st, s[0]), s[1..], program);
    }
  }

  /** The outcome of parsing a command line when every call of the tokenizer succeeds. */
  function Parse(lower: string -> string, line: string, program: string): ParseOutcome {
    var argv := Arguments(line, program);
    ArgumentsNonEmpty(line, program);
    if HelpRequested(lower, argv, 1) then Parsed(DEFAULT_OPTIONS.(showHelp := true))
    else
      match TakeAll(lower, line, program, argv, 1, START)
      case Reject(error) => Rejected(error)
      case Stop(p) => Conclude(p)
      case Continue(_, p) => Conclude(p)
  }

  // ---- The parser ----

  method ReadOptionValue(index: nat, argv: seq<string>, name: string)
    returns (next: nat, value: string, error: Option<ParseError>)
    ensures error.Some? <==> index + 1 >= |argv| || argv[index + 1] == ""
    ensures error.Some? ==> error.value == if index + 1 >= |argv| then MissingValue(name) else EmptyValue(name)
    ensures error.None? ==> next == index + 1 && value == argv[index + 1]
  {
    next, value := index, "";
    if index + 1 >= |argv| { return next, value, Some(MissingValue(name)); }
    next := index + 1;
    value := argv[next];
    if value == "" { return next, value, Some(EmptyValue(name)); }
    return next, value, None;
  }

  lemma SpellingsFold(lower: string -> string)
    requires FoldsCase(lower)
    ensures lower("--auto") == "--auto" && lower("--profile") == "--profile" && lower("--run") == "--run"
    ensures lower("--bootstrap-event") == "--bootstrap-event"
  {
    assert !Classify("--auto").Other?;
    assert !Classify("--profile").Other?;
    assert !Classify("--run").Other?;
    assert !Classify("--bootstrap-event").Other?;
  }

  lemma HelpFolds(lower: string -> string)
    requires FoldsCase(lower)
    ensures lower("/?") == "/?" && lower("-?") == "-?" && lower("--help") == "--help"
  {
    assert !Classify("/?").Other?;
    assert !Classify("-?").Other?;
    assert !Classify("--help").Other?;
  }

  /** The chain of comparisons, some of them ignoring case once more. */
  method Recognize(lower: string -> string, name: string) returns (n: Name)
    requires FoldsCase(lower) && lower(name) == name
    ensures n == Classify(name) && (n.Dashes? <==> name == "--")
  {
    SpellingsFold(lower);
    HelpFolds(lower);
    hide FoldsCase;
    if name == "--" { return Dashes; }
    if lower(name) == lower("--auto") { return Auto; }
    if lower(name) == lower("--profile") { return Profile; }
    if lower(name) == lower("--run") { return RunTarget; }
    if name == "--elevated" { return Elevated; }
    if name == "--packaged" { return Packaged; }
    if name == "--shortcut" { return Shortcut; }
    if name == "--arguments" { return Initial; }
    if name == "--app-name" { return ApplicationName; }
    if name == "--working-directory" { return Directory; }
    if lower(name) == lower("--bootstrap-event") { return BootstrapEvent; }
    if lower(name) == lower("/?") || lower(name) == lower("-?") || lower(name) == lower("--help") { return Help; }
    return Other;
  }

  method AsksForHelp(lower: string -> string, argv: seq<string>) returns (help: bool)
    requires FoldsCase(lower)
    ensures help == HelpRequested(lower, argv, 1)
  {
    hide Classify;
    var i := 1;
    while i < |argv|
      invariant i >= 1 && HelpRequested(lower, argv, 1) == HelpRequested(lower, argv, i)
      decreases |argv| - i
    {
      var name := lower(argv[i]);
      assert lower(name) == name;
      var n := Recognize(lower, name);
      if n.Dashes? { return false; }
      if TakesValue(n) {
        i := i + 2;
        continue;
      }
      if n.Help? { return true; }
      i := i + 1;
    }
    return false;
  }

  /** The branch for one argument other than "--". */
  method ReadOption(argv: seq<string>, at: nat, name: string, n: Name, p: Progress)
    returns (i: nat, q: Progress, error: Option<ParseError>)
    requires at < |argv| && n == Classify(name) && !n.Dashes?
    ensures TakeOption(argv, at, name, p) == if error.Some? then Reject(error.value) else Continue(i, q)
  {
    var options, seen := p.options, p.seen;
    i, q, error := at, p, None;
    match n {
      case Auto | Elevated | Packaged | Shortcut =>
        var flag := if n.Auto? then options.enabled
                    else if n.Elevated? then options.elevated
                    else if n.Packaged? then options.packaged else options.shortcut;
        if flag { return i, q, Some(Duplicate(name)); }
        options := if n.Auto? then options.(enabled := true)
                   else if n.Elevated? then options.(elevated := true)
                   else if n.Packaged? then options.(packaged := true) else options.(shortcut := true);
      case Profile | RunTarget | Initial | ApplicationName | Directory | BootstrapEvent =>
        var value;
        i, value, error := ReadValueOnce(argv, at, name, n in seen);
        if error.Some? { return; }
        options := if n.Profile? then options.(profileName := value)
                   else if n.RunTarget? then options.(targetPath := value)
                   else if n.Initial? then options.(initialArguments := value)
                   else if n.ApplicationName? then options.(applicationName := value)
                   else if n.Directory? then options.(workingDirectory := value)
                   else options.(bootstrapEventName := value);
        seen := seen + {n};
      case _ =>
        if options.enabled { return i, q, Some(UnknownOption(name)); }
        if "--" <= name { q := q.(unknown := name); }
    }
    i := i + 1;
    q := q.(options := options, seen := seen);
  }

  method ReadValueOnce(argv: seq<string>, at: nat, name: string, repeated: bool)
    returns (i: nat, value: string, error: Option<ParseError>)
    ensures error == if repeated then Some(Duplicate(name))
                     else if at + 1 >= |argv| then Some(MissingValue(name))
                     else if argv[at + 1] == "" then Some(EmptyValue(name)) else None
    ensures error.None? ==> i == at + 1 && value == argv[i]
  {
    i, value, error := at, "", None;
    if repeated {
      error := Some(Duplicate(name));
    } else {
      i, value, error := ReadOptionValue(at, argv, name);
    }
  }

  /** `works` says which calls of the tokenizer succeed, counted from 0. */
  method ParseAutomationOptions(lower: string -> string, line: string, program: string, works: nat -> bool)
    returns (outcome: ParseOutcome)
    requires FoldsCase(lower)
    ensures (forall n: nat :: works(n)) ==> outcome == Parse(lower, line, program)
    ensures outcome in {Parse(lower, line, program), Rejected(TokenizerFailed), Rejected(BoundaryNotFound)}
  {
    hide Classify, TakeOption, HelpRequested, RawTailAfter, Arguments;
    var answer := CommandLineToArgv(line, program, works(0));
    if answer.None? { return Rejected(TokenizerFailed); }
    var argv := answer.value;
    ArgumentsNonEmpty(line, program);
    var help := AsksForHelp(lower, argv);
    if help { return Parsed(DEFAULT_OPTIONS.(showHelp := true)); }

    var p := START;
    var i := 1;
    while i < |argv|
      invariant 1 <= i <= |argv|
      invariant TakeAll(lower, line, program, argv, 1, START) == TakeAll(lower, line, program, argv, i, p)
      decreases |argv| - i
    {
      var name := lower(argv[i]);
      assert lower(name) == name;
      var n := Recognize(lower, name);
      if n.Dashes? {
        var tail := RawTailAfterArgument(line, i, program, (n: nat) => works(n + 1));
        if tail.None? { return Rejected(BoundaryNotFound); }
        if p.options.initialArguments != "" && tail.value != "" {
          p := p.(options := p.options.(initialArguments := p.options.initialArguments + " "));
        }
        p := p.(options := p.options.(initialArguments := p.options.initialArguments + tail.value));
        break;
      }
      var error;
      i, p, error := ReadOption(argv, i, name, n, p);
      if error.Some? { return Rejected(error.value); }
    }

    if !p.options.enabled { return Parsed(p.options); }
    if p.unknown != "" { return Rejected(UnknownOption(p.unknown)); }
    if Profile !in p.seen || RunTarget !in p.seen { return Rejected(ProfileAndRunRequired); }
    return Parsed(p.options);
  }
}
