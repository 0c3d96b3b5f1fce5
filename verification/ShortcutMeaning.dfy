/** What a shortcut is decoded to, in terms of what it resolves to and what its words say. */
module ShortcutMeaning {
  import opened Text
  import opened Argv
  import opened Quoting
  import opened Automation
  import opened OptionWords
  import opened Applications
  import opened LaunchShortcut

  /** What an entry stands for: itself, or what it points at if it is a link. */
  ghost predicate StandsFor(shell: Shell, source: Application, app: Application) {
    if shell.isLink(source.path) then shell.resolve(source.path) == Some(app) else app == source
  }

  /** The line that the program would get. */
  function LineOf(app: Application): string {
    Quote(app.path) + " " + app.arguments
  }

  /** The words of the line ask for an automated launch that is to be started for itself. */
  ghost predicate SaysLaunch(shell: Shell, line: string) {
    var argv := Arguments(line, shell.program);
    && !Given(shell.lower, argv, Help, |argv|) && !HasFault(shell.lower, line, shell.program, argv, |argv|)
    && Given(shell.lower, argv, Auto, |argv|) && Complete(shell.lower, argv) && !Given(shell.lower, argv, BootstrapEvent, |argv|)
  }

  /** What the options of a line name; a link is followed once, its arguments come first. */
  ghost predicate Names(shell: Shell, o: AutomationOptions, app: Application) {
    if o.packaged then
      app.aumid == o.targetPath && app.path == "" && app.arguments == o.initialArguments && app.workingDirectory == o.workingDirectory
    else if !shell.isLink(o.targetPath) then
      app.aumid == "" && app.path == o.targetPath && app.arguments == o.initialArguments && app.workingDirectory == o.workingDirectory
    else
      shell.resolve(o.targetPath).Some? &&
      var linked := shell.resolve(o.targetPath).value;
      && !shell.isLink(linked.path) && app.aumid == linked.aumid && app.path == linked.path
      && app.workingDirectory == linked.workingDirectory && JoinedBySpace(linked.arguments, o.initialArguments, app.arguments)
  }

  /** The program itself, under whatever name, and not a packaged application. */
  predicate IsItself(shell: Shell, app: Application) {
    app.aumid == "" && shell.isOwn(app.path)
  }

  /** What is said of the event and the target. */
  lemma SaidNames(shell: Shell, line: string, o: AutomationOptions)
    requires var argv := Arguments(line, shell.program); Says(shell.lower, line, shell.program, argv, o)
    ensures var argv := Arguments(line, shell.program);
            && (o.enabled <==> Given(shell.lower, argv, Auto, |argv|))
            && (o.bootstrapEventName != "" <==> Given(shell.lower, argv, BootstrapEvent, |argv|))
            && (o.targetPath != "" <==> Given(shell.lower, argv, RunTarget, |argv|))
            && !o.showHelp && o.targetArguments == []
  {
    var argv := Arguments(line, shell.program);
    hide Arguments, Given, IsTail, ValuesSaid, JoinedBySpace;
    var tail, typed :| IsTail(shell.lower, line, shell.program, argv, tail) && JoinedBySpace(typed, tail, o.initialArguments)
      && ValuesSaid(shell.lower, argv, |argv|, o.(initialArguments := typed));
    ValueIfGiven(shell.lower, argv, o.(initialArguments := typed), BootstrapEvent);
    ValueIfGiven(shell.lower, argv, o.(initialArguments := typed), RunTarget);
    assert Flag(o, Auto) == o.enabled;
  }

  /** The outcome of parsing is a launch that the program can be started for. */
  predicate ReadsLaunch(outcome: ParseOutcome) {
    outcome.Parsed? && outcome.options.enabled && !outcome.options.showHelp && outcome.options.bootstrapEventName == ""
  }

  /** A line is taken for a launch exactly if its words ask for one. */
  lemma LaunchIsSaid(shell: Shell, line: string)
    ensures ReadsLaunch(Parse(shell.lower, line, shell.program)) <==> SaysLaunch(shell, line)
    ensures SaysLaunch(shell, line) ==>
              Parse(shell.lower, line, shell.program).options.targetPath != "" &&
              Parse(shell.lower, line, shell.program).options.targetArguments == []
  {
    var outcome, argv := Parse(shell.lower, line, shell.program), Arguments(line, shell.program);
    ParseDecides(shell.lower, line, shell.program);
    hide Parse, Arguments, Says, Given, HasFault, HasUnknown;
    if outcome.Parsed? && !Given(shell.lower, argv, Help, |argv|) {
      SaidNames(shell, line, outcome.options);
    }
  }

  /** What the options name is the target that the program follows, if it finds one. */
  lemma TargetIsNamed(shell: Shell, o: AutomationOptions)
    requires !shell.isLink("")
    ensures Target(shell, o).Some? ==> Names(shell, o, Target(shell, o).value)
    ensures forall app :: Names(shell, o, app) ==>
              Target(shell, o).Some? && app.aumid == Target(shell, o).value.aumid && app.path == Target(shell, o).value.path
  {
  }

  /** The decoding of a line that has been read, in terms of the target that is followed. */
  lemma DecodeFollows(shell: Shell, source: Application, app: Application)
    requires StandsFor(shell, source, app)
    ensures Decode(shell, source).NotManaged? <==> !IsItself(shell, app)
    ensures var outcome := Parse(shell.lower, LineOf(app), shell.program);
            && (Decode(shell, source).Decoded? <==>
                  IsItself(shell, app) && ReadsLaunch(outcome) && Target(shell, outcome.options).Some? &&
                  !IsItself(shell, Target(shell, outcome.options).value))
            && (Decode(shell, source).Decoded? ==>
                  var t := Target(shell, outcome.options).value;
                  Decode(shell, source) ==
                    Finished(shell, outcome.options, t.(arguments := AppendQuoted(t.arguments, outcome.options.targetArguments))))
  {
    hide Parse, Quote, Target, AppendQuoted, Finished;
  }

  /**
   Every source has one of three outcomes. Other programs are not managed; the program itself is decoded
   exactly if its words ask for a launch of something else that is there; everything else is invalid.
   */
  lemma DecodeDecides(shell: Shell, source: Application, app: Application)
    requires StandsFor(shell, source, app) && !shell.isLink("")
    ensures Decode(shell, source).NotManaged? <==> !IsItself(shell, app)
    ensures Decode(shell, source).Decoded? <==> IsItself(shell, app) && SaysLaunch(shell, LineOf(app)) && LeadsElsewhere(shell, LineOf(app))
  {
    DecodeFollows(shell, source, app);
    LaunchIsSaid(shell, LineOf(app));
    hide Parse, Quote, Target, Names, Decode, SaysLaunch;
    var outcome := Parse(shell.lower, LineOf(app), shell.program);
    if outcome.Parsed? {
      TargetIsNamed(shell, outcome.options);
    }
  }

  /** The options of the line name something else than the program. */
  ghost predicate LeadsElsewhere(shell: Shell, line: string) {
    var outcome := Parse(shell.lower, line, shell.program);
    outcome.Parsed? && exists target :: Names(shell, outcome.options, target) && !IsItself(shell, target)
  }

  /** What a decoded shortcut starts, and the options it has from then on. */
  lemma DecodedMeans(shell: Shell, source: Application, app: Application)
    requires StandsFor(shell, source, app) && !shell.isLink("") && Decode(shell, source).Decoded?
    ensures SaysLaunch(shell, LineOf(app))
    ensures var o := Parse(shell.lower, LineOf(app), shell.program).options;
            var target, options := Decode(shell, source).target, Decode(shell, source).options;
            && Names(shell, o, target) && !IsItself(shell, target) && target.sources == [] && target.icon == 0
            && target.name == (if o.applicationName != "" then o.applicationName
                               else if target.aumid != "" then target.aumid else shell.fileName(target.path))
            && (o.packaged || !shell.isLink(o.targetPath) ==> target.aumid != "" || target.path != "")
            && options.enabled && !options.showHelp && options.bootstrapEventName == "" && options.targetArguments == []
            && options.profileName == o.profileName && options.applicationName == o.applicationName
            && options.elevated == o.elevated && options.shortcut == o.shortcut
            && options.packaged == (target.aumid != "")
            && options.targetPath == (if target.aumid != "" then target.aumid else target.path)
            && options.initialArguments == target.arguments && options.workingDirectory == target.workingDirectory
  {
    DecodeFollows(shell, source, app);
    LaunchIsSaid(shell, LineOf(app));
    hide Parse, Quote, Target, Decode, SaysLaunch, JoinedBySpace;
    var outcome := Parse(shell.lower, LineOf(app), shell.program);
    TargetIsNamed(shell, outcome.options);
  }

  /** A link is decoded to what its resolution is decoded to, unless that is a link again. */
  lemma LinkDecodesAsResolved(shell: Shell, source: Application, app: Application)
    requires shell.isLink(source.path) && shell.resolve(source.path) == Some(app) && !shell.isLink(app.path)
    ensures Decode(shell, source) == Decode(shell, app)
  {
    hide Parse, Quote, Target, AppendQuoted, Finished;
  }

  /** A link that points nowhere is invalid. */
  lemma DanglingIsInvalid(shell: Shell, source: Application)
    requires shell.isLink(source.path) && shell.resolve(source.path) == None
    ensures Decode(shell, source).Invalid?
  {
    hide Parse, Quote, Target, AppendQuoted, Finished;
  }
}
