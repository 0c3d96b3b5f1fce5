/** Shortcuts that start an application through the program itself: the client of the round trip. */
module LaunchShortcut {
  import opened Text
  import opened Quoting
  import opened Automation
  import opened BuildCommandLine
  import opened CommandLineRoundTrip
  import opened Applications

  datatype Decoding = NotManaged | Invalid | Decoded(target: Application, options: AutomationOptions)

  /** What the shell and the file system answer. */
  datatype Shell = Shell(
    isLink: string -> bool,                     // the path names a .lnk file
    resolve: string -> Option<Application>,     // what a shortcut points at
    isOwn: string -> bool,                      // the path is this program, renamed or not
    fileName: string -> string,
    lower: string -> string,
    program: string)

  /** The text followed by each argument, quoted, with single blanks in between. */
  function AppendQuoted(text: string, arguments: seq<string>): string {
    if arguments == [] then text
    else
      var front := AppendQuoted(text, arguments[..|arguments| - 1]);
      (if front != "" then front + " " else front) + Quote(arguments[|arguments| - 1])
  }

  /** The target a managed shortcut stands for, or why there is none. */
  function Decode(shell: Shell, source: Application): Decoding {
    var resolved := if shell.isLink(source.path) then shell.resolve(source.path) else Some(source);
    if resolved.None? then Invalid
    else if resolved.value.IsPackaged() || !shell.isOwn(resolved.value.path) then NotManaged
    else
      match Parse(shell.lower, Quote(resolved.value.path) + " " + resolved.value.arguments, shell.program)
      case Rejected(_) => Invalid
      case Parsed(o) =>
        if !o.enabled || o.showHelp || o.bootstrapEventName != "" then Invalid
        else
          match Target(shell, o)
          case None => Invalid
          case Some(t) =>
            if !t.IsPackaged() && shell.isOwn(t.path) then Invalid
            else Finished(shell, o, t.(arguments := AppendQuoted(t.arguments, o.targetArguments)))
  }

  /** The stored target; a stored shortcut is followed once, never into a further shortcut. */
  function Target(shell: Shell, o: AutomationOptions): Option<Application> {
    var plain := NO_APPLICATION.(
      aumid := if o.packaged then o.targetPath else "",
      path := if o.packaged then "" else o.targetPath,
      arguments := o.initialArguments, workingDirectory := o.workingDirectory);
    if !shell.isLink(plain.path) then Some(plain)
    else
      match shell.resolve(plain.path)
      case None => None
      case Some(linked) =>
        if shell.isLink(linked.path) then None
        else Some(linked.(arguments := AppendTail(linked.arguments, o.initialArguments)))
  }

  function Finished(shell: Shell, o: AutomationOptions, t: Application): (d: Decoding)
    ensures d.Decoded?
  {
    var name := if o.applicationName != "" then o.applicationName
                else if t.IsPackaged() then t.aumid else shell.fileName(t.path);
    Decoded(t.(sources := [], icon := 0, name := name),
            o.(targetPath := if t.IsPackaged() then t.aumid else t.path, packaged := t.IsPackaged(),
               initialArguments := t.arguments, workingDirectory := t.workingDirectory, targetArguments := []))
  }

  method FollowTarget(shell: Shell, options: AutomationOptions) returns (found: Option<Application>)
    ensures found == Target(shell, options)
  {
    var target := NO_APPLICATION;
    if options.packaged {
      target := target.(aumid := options.targetPath);
    } else {
      target := target.(path := options.targetPath);
    }
    target := target.(arguments := options.initialArguments);
    target := target.(workingDirectory := options.workingDirectory);
    if shell.isLink(target.path) {
      var answer := shell.resolve(target.path);
      if answer.None? { return None; }
      target := answer.value;
      if shell.isLink(target.path) { return None; }
      assert target.arguments + "" == target.arguments;
      ghost var linked := target;
      if options.initialArguments != "" {
        if target.arguments != "" { target := target.(arguments := target.arguments + " "); }
        target := target.(arguments := target.arguments + options.initialArguments);
      }
      assert target.arguments == AppendTail(linked.arguments, options.initialArguments);
    }
    return Some(target);
  }

  method AppendArguments(text: string, arguments: seq<string>) returns (joined: string)
    ensures joined == AppendQuoted(text, arguments)
  {
    joined := text;
    assert arguments[..0] == [];
    for i := 0 to |arguments|
      invariant joined == AppendQuoted(text, arguments[..i])
    {
      assert arguments[..i + 1][..i] == arguments[..i];
      var argument := QuoteCommandLineArgument(arguments[i]);
      if joined != "" { joined := joined + " "; }
      joined := joined + argument;
    }
    assert arguments[..|arguments|] == arguments;
  }

  /** `works` says which calls of the tokenizer succeed; a link that it cannot read is invalid. */
  method DecodeShortcut(shell: Shell, source: Application, works: nat -> bool) returns (decoding: Decoding)
    requires FoldsCase(shell.lower)
    ensures (forall n: nat :: works(n)) ==> decoding == Decode(shell, source)
    ensures decoding in {Decode(shell, source), Invalid}
  {
    hide Parse, Quote, Target, AppendQuoted, FoldsCase, Finished;
    var resolved := source;
    if shell.isLink(source.path) {
      var answer := shell.resolve(source.path);
      if answer.None? { return Invalid; }
      resolved := answer.value;
    }
    if resolved.IsPackaged() || !shell.isOwn(resolved.path) { return NotManaged; }
    var quoted := QuoteCommandLineArgument(resolved.path);
    var line := quoted + " " + resolved.arguments;
    var outcome := ParseAutomationOptions(shell.lower, line, shell.program, works);
    if outcome.Rejected? { return Invalid; }
    var options := outcome.options;
    if !options.enabled || options.showHelp || options.bootstrapEventName != "" { return Invalid; }
    var found := FollowTarget(shell, options);
    if found.None? { return Invalid; }
    var target := found.value;
    if !target.IsPackaged() && shell.isOwn(target.path) { return Invalid; }
    var arguments := AppendArguments(target.arguments, options.targetArguments);
    decoding := FinishDecoding(shell, options, target.(arguments := arguments));
  }

  /** Names the target and puts it into the options. */
  method FinishDecoding(shell: Shell, read: AutomationOptions, found: Application) returns (decoding: Decoding)
    ensures decoding == Finished(shell, read, found)
  {
    var name := if found.IsPackaged() then found.aumid else shell.fileName(found.path);
    if read.applicationName != "" { name := read.applicationName; }
    var target := found.(sources := [], icon := 0, name := name);
    var options := read.(targetPath := if target.IsPackaged() then target.aumid else target.path,
      packaged := target.IsPackaged(), initialArguments := target.arguments,
      workingDirectory := target.workingDirectory, targetArguments := []);
    return Decoded(target, options);
  }

  /** The options that a new shortcut for `app` stores. */
  function Stored(profile: string, name: string, app: Application, elevated: bool): AutomationOptions {
    DEFAULT_OPTIONS.(
      enabled := true, shortcut := true, profileName := profile, applicationName := name,
      targetPath := if app.IsPackaged() then app.aumid else app.path,
      initialArguments := app.arguments, workingDirectory := app.workingDirectory,
      packaged := app.IsPackaged(), elevated := elevated && !app.IsPackaged())
  }

  datatype Creation = Failed | Written(executable: string, arguments: string)

  /** A shortcut to a managed shortcut is one to the application behind it. */
  function Chosen(d: Decoding, app: Application): Application {
    if d.Decoded? then d.target else app
  }

  /** The arguments that Create stores for an entry. */
  function StoredArguments(shell: Shell, profile: string, name: string, app: Application, elevated: bool): string {
    var d := Decode(shell, app);
    Build(Stored(profile, name, Chosen(d, app), elevated || (d.Decoded? && d.options.elevated)), "")
  }

  const MAX_ARGUMENTS := 32767

  /** There is something to write, and room for it. */
  predicate CanCreate(shell: Shell, executable: string, profile: string, name: string, entry: Option<Application>, elevated: bool) {
    && profile != "" && entry.Some? && !Decode(shell, entry.value).Invalid? && executable != ""
    && |StoredArguments(shell, profile, name, entry.value, elevated)| + |executable| + 4 < MAX_ARGUMENTS
  }

  /** What Create writes into the link file, up to the icon; `executable` is the running program. */
  method CreateShortcut(shell: Shell, executable: string, profile: string, name: string,
                        entry: Option<Application>, elevated: bool, works: nat -> bool) returns (creation: Creation)
    requires FoldsCase(shell.lower)
    ensures creation.Written? ==> CanCreate(shell, executable, profile, name, entry, elevated)
    ensures creation.Written? ==> creation == Written(executable, StoredArguments(shell, profile, name, entry.value, elevated))
    ensures (forall n: nat :: works(n)) ==> (creation.Written? <==> CanCreate(shell, executable, profile, name, entry, elevated))
  {
    if profile == "" || entry.None? { return Failed; }
    var app := entry.value;
    var state := DecodeShortcut(shell, app, works);
    if state.Invalid? { return Failed; }
    var alreadyElevated := false;
    if state.Decoded? {
      app := state.target;
      alreadyElevated := state.options.elevated;
    }
    var options := DEFAULT_OPTIONS.(enabled := true, shortcut := true, profileName := profile);
    options := options.(applicationName := name);
    options := options.(targetPath := if app.IsPackaged() then app.aumid else app.path);
    options := options.(initialArguments := app.arguments, workingDirectory := app.workingDirectory);
    options := options.(packaged := app.IsPackaged(), elevated := elevated || alreadyElevated);
    if options.packaged { options := options.(elevated := false); }
    var arguments := BuildAutomationCommandLine(options, "");
    if executable == "" || |arguments| + |executable| + 4 >= MAX_ARGUMENTS { return Failed; }
    return Written(executable, arguments);
  }

  /**
   A shortcut written for an application that is neither a link nor the program itself decodes to
   that application: same target, directory, name, flags and profile, and its arguments up to
   leading blanks.
   */
  lemma DecodeRecoversStored(shell: Shell, executable: string, profile: string, name: string,
                             app: Application, elevated: bool)
    requires FoldsCase(shell.lower) && profile != "" && (app.IsPackaged() || app.path != "")
    requires '"' !in executable && shell.isOwn(executable) && !shell.isLink(executable)
    requires !shell.isLink("") && (app.IsPackaged() || (!shell.isLink(app.path) && !shell.isOwn(app.path)))
    ensures var o := Stored(profile, name, app, elevated);
            var link := NO_APPLICATION.(path := executable, arguments := Build(o, ""));
            var arguments := SkipBlanks(app.arguments);
            match Decode(shell, link)
            case Decoded(target, options) =>
              && target.aumid == app.aumid && target.path == (if app.IsPackaged() then "" else app.path)
              && target.arguments == arguments && target.workingDirectory == app.workingDirectory
              && (name != "" ==> target.name == name) && target.icon == 0 && target.sources == []
              && options == o.(initialArguments := arguments)
            case _ => false
  {
    hide Parse, Build, Quote, FoldsCase, ApplicationArguments;
    var o := Stored(profile, name, app, elevated);
    ParseReadsBuild(shell.lower, executable, shell.program, o, "");
    PlainTail(o);
  }

  /** A link whose target is a link again. */
  predicate LeadsToLink(shell: Shell, path: string) {
    shell.isLink(path) && shell.resolve(path).Some? && shell.isLink(shell.resolve(path).value.path)
  }

  /** What a shortcut to an application or to a link starts: the arguments of the link first, then its own. */
  ghost predicate Starts(shell: Shell, app: Application, target: Application) {
    var arguments := SkipBlanks(app.arguments);
    && target.sources == [] && target.icon == 0
    && if !app.IsPackaged() && shell.isLink(app.path) then
         shell.resolve(app.path).Some? &&
         var linked := shell.resolve(app.path).value;
         && target.aumid == linked.aumid && target.path == linked.path && target.workingDirectory == linked.workingDirectory
         && JoinedBySpace(linked.arguments, arguments, target.arguments)
       else
         && target.aumid == app.aumid && target.path == (if app.aumid != "" then "" else app.path)
         && target.workingDirectory == app.workingDirectory && target.arguments == arguments
  }

  /** Decoding ends with something that can be started: neither a link nor the program itself. */
  lemma DecodedIsPlain(shell: Shell, source: Application)
    requires !shell.isLink("")
    ensures var d := Decode(shell, source);
            && (d.Decoded? ==> !shell.isLink(d.target.path) && (d.target.IsPackaged() || !shell.isOwn(d.target.path)))
            && (d.NotManaged? && !shell.isLink(source.path) ==> source.IsPackaged() || !shell.isOwn(source.path))
            && (d.NotManaged? && shell.isLink(source.path) ==>
                  shell.resolve(source.path).Some? &&
                  (shell.resolve(source.path).value.IsPackaged() || !shell.isOwn(shell.resolve(source.path).value.path)))
  {
    hide Parse, Quote, AppendQuoted;
  }

  /** Reading a printed line as a shortcut follows its target at once. */
  lemma DecodeOfBuilt(shell: Shell, executable: string, o: AutomationOptions)
    requires FoldsCase(shell.lower) && '"' !in executable && shell.isOwn(executable) && !shell.isLink(executable)
    requires o.profileName != "" && o.targetPath != "" && o.targetArguments == []
    ensures var read := FromWords(o, "").(initialArguments := SkipBlanks(o.initialArguments));
            Decode(shell, NO_APPLICATION.(path := executable, arguments := Build(o, ""))) ==
            match Target(shell, read)
            case None => Invalid
            case Some(t) => if !t.IsPackaged() && shell.isOwn(t.path) then Invalid else Finished(shell, read, t)
  {
    ParseReadsBuild(shell.lower, executable, shell.program, o, "");
    PlainTail(o);
    hide Parse, Build, Quote, FoldsCase, ApplicationArguments, Target;
  }

  /**
   Whatever Create has written, managed entries included, is read back as what the entry stands for, with
   its profile and flags, exactly when the entry is not a link to a link.
   */
  lemma CreatedIsRead(shell: Shell, executable: string, profile: string, name: string, entry: Application, elevated: bool)
    requires FoldsCase(shell.lower) && profile != "" && '"' !in executable
    requires shell.isOwn(executable) && !shell.isLink(executable) && !shell.isLink("")
    requires var d := Decode(shell, entry); !d.Invalid? && (Chosen(d, entry).IsPackaged() || Chosen(d, entry).path != "")
    ensures var d := Decode(shell, entry);
            var app := Chosen(d, entry);
            var again := Decode(shell, NO_APPLICATION.(path := executable, arguments := StoredArguments(shell, profile, name, entry, elevated)));
            && (again.Decoded? <==> app.IsPackaged() || !LeadsToLink(shell, app.path))
            && (again.Decoded? ==>
                  && Starts(shell, app, again.target)
                  && again.target.name == (if name != "" then name else if again.target.aumid != "" then again.target.aumid
                                           else shell.fileName(again.target.path))
                  && again.options.profileName == profile && again.options.shortcut
                  && again.options.elevated == (!app.IsPackaged() && (elevated || (d.Decoded? && d.options.elevated))))
  {
    var d := Decode(shell, entry);
    var app := Chosen(d, entry);
    DecodedIsPlain(shell, entry);
    var o := Stored(profile, name, app, elevated || (d.Decoded? && d.options.elevated));
    assert StoredArguments(shell, profile, name, entry, elevated) == Build(o, "");
    hide StoredArguments, Decode, Build, FoldsCase, Starts, Target;
    DecodeOfBuilt(shell, executable, o);
    StoredTarget(shell, app, FromWords(o, "").(initialArguments := SkipBlanks(o.initialArguments)));
  }

  /** The target that the stored options lead to. */
  lemma StoredTarget(shell: Shell, app: Application, read: AutomationOptions)
    requires !shell.isLink("") && (app.IsPackaged() || app.path != "")
    requires read.packaged == app.IsPackaged() && read.targetPath == (if app.IsPackaged() then app.aumid else app.path)
    requires read.initialArguments == SkipBlanks(app.arguments) && read.workingDirectory == app.workingDirectory
    ensures Target(shell, read).Some? <==>
      app.IsPackaged() || !shell.isLink(app.path) || (shell.resolve(app.path).Some? && !shell.isLink(shell.resolve(app.path).value.path))
    ensures Target(shell, read).Some? ==>
              var t := Target(shell, read).value;
              Starts(shell, app, t.(sources := [], icon := 0)) && (t.IsPackaged() <==> t.aumid != "") &&
              (app.IsPackaged() ==> t.aumid == app.aumid) &&
              (!app.IsPackaged() && !shell.isLink(app.path) ==> t.aumid == "" && t.path == app.path) &&
              (!app.IsPackaged() && shell.isLink(app.path) ==>
                 t.aumid == shell.resolve(app.path).value.aumid && t.path == shell.resolve(app.path).value.path)
    ensures forall x: Application, name: string :: Starts(shell, app, x) <==> Starts(shell, app, x.(name := name))
  {
  }

  /** The arguments come back exactly as they were precisely when they do not start with a blank. */
  lemma ArgumentsRecoveredExactly(app: Application)
    ensures SkipBlanks(app.arguments) == app.arguments <==> (app.arguments == "" || !IsBlank(app.arguments[0]))
  {
    SkipBlanksTrims(app.arguments);
  }
}
