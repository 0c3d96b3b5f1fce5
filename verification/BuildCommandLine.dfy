/** Printing automation options, and what the tokenizer makes of the printed words. */
module BuildCommandLine {
  import opened Text
  import opened Quoting
  import opened Automation

  function SpacedWord(word: string): string {
    " " + Quote(word)
  }

  /** Each word quoted, with a blank in front. */
  function Spaced(words: seq<string>): string {
    if words == [] then "" else SpacedWord(words[0]) + Spaced(words[1..])
  }

  // The words of the command line, option by option, up to the optional "--".

  function Optional(name: string, value: string): seq<string> {
    if value == "" then [] else [name, value]
  }

  function Switch(name: string, on: bool): seq<string> {
    if on then [name] else []
  }

  function Words(o: AutomationOptions, event: string): seq<string> {
    ["--auto"] + (["--profile", o.profileName] + (["--run", o.targetPath] +
    (Optional("--app-name", o.applicationName) + (Optional("--working-directory", o.workingDirectory) +
    (Switch("--elevated", o.elevated) + (Switch("--packaged", o.packaged) +
    (Switch("--shortcut", o.shortcut) + Optional("--bootstrap-event", event))))))))
  }

  /** The application's own arguments: the raw ones as they are, then the others quoted. */
  function ApplicationArguments(o: AutomationOptions): string {
    (if o.initialArguments != "" then " " + o.initialArguments else "") + Spaced(o.targetArguments)
  }

  function Tail(o: AutomationOptions): string {
    if o.initialArguments != "" || o.targetArguments != [] then " --" + ApplicationArguments(o) else ""
  }

  lemma {:induction false} SpacedConcat(a: seq<string>, b: seq<string>)
    ensures Spaced(a + b) == Spaced(a) + Spaced(b)
    decreases |a|
  {
    if a == [] {
      assert a + b == b;
    } else {
      assert (a + b)[1..] == a[1..] + b;
      SpacedConcat(a[1..], b);
    }
  }

  /** A bare option name needs no quotes. */
  lemma PlainQuote(word: string)
    requires word != "" && forall c :: c in word ==> !IsBlank(c) && c != '"'
    ensures Quote(word) == word
  {
    forall i | 0 <= i < |word| ensures word[i] !in {' ', '\t', '"'} {
      assert word[i] in word;
    }
  }

  lemma SpacedOne(word: string)
    requires word != "" && forall c :: c in word ==> !IsBlank(c) && c != '"'
    ensures Spaced([word]) == " " + word
  {
    PlainQuote(word);
    assert [word][1..] == [];
  }

  lemma SpacedPair(word: string, value: string)
    requires word != "" && forall c :: c in word ==> !IsBlank(c) && c != '"'
    ensures Spaced([word, value]) == " " + word + " " + Quote(value)
  {
    PlainQuote(word);
    assert [word, value][1..] == [value];
    assert [value][1..] == [];
    assert Spaced([value]) == " " + Quote(value);
    assert " " + word + (" " + Quote(value)) == " " + word + " " + Quote(value);
  }

  lemma BlankFirst(line: string, added: string, spaced: string)
    requires " " + line == spaced
    ensures " " + (line + added) == spaced + added
  {
    Regroup(" ", line, added);
  }

  /** The option with its quoted value goes after a blank, or nothing at all if the value is empty. */
  method AddOption(line: string, ghost words: seq<string>, name: string, value: string)
    returns (longer: string)
    requires " " + line == Spaced(words)
    requires name != "" && forall c :: c in name ==> !IsBlank(c) && c != '"'
    ensures " " + longer == Spaced(words + [name, value])
  {
    SpacedPair(name, value);
    SpacedConcat(words, [name, value]);
    var quoted := QuoteCommandLineArgument(value);
    var added := " " + name + " " + quoted;
    BlankFirst(line, added, Spaced(words));
    longer := line + added;
  }

  method AddSwitch(line: string, ghost words: seq<string>, name: string)
    returns (longer: string)
    requires " " + line == Spaced(words)
    requires name != "" && forall c :: c in name ==> !IsBlank(c) && c != '"'
    ensures " " + longer == Spaced(words + [name])
  {
    SpacedOne(name);
    SpacedConcat(words, [name]);
    var added := " " + name;
    BlankFirst(line, added, Spaced(words));
    longer := line + added;
  }

  /** The printed options; every word is preceded by a blank except the first. */
  function Build(o: AutomationOptions, event: string): (line: string)
    ensures " " + line == Spaced(Words(o, event)) + Tail(o)
  {
    assert Words(o, event)[0] == "--auto";
    (Spaced(Words(o, event)) + Tail(o))[1..]
  }

  /** `event` is empty when no bootstrap event is passed on. */
  method BuildAutomationCommandLine(o: AutomationOptions, event: string) returns (line: string)
    ensures line == Build(o, event)
  {
    line := PrintWords(o, event);
    ghost var head := line;
    line := PrintTail(line, o);
    BlankFirst(head, Tail(o), Spaced(Words(o, event)));
    assert line == (" " + line)[1..];
  }

  method PrintWords(o: AutomationOptions, event: string) returns (line: string)
    ensures " " + line == Spaced(Words(o, event))
  {
    SpacedOne("--auto");
    line := "--auto";
    ghost var words := ["--auto"];
    ghost var w7 := Optional("--bootstrap-event", event);
    ghost var w6 := Switch("--shortcut", o.shortcut) + w7;
    ghost var w5 := Switch("--packaged", o.packaged) + w6;
    ghost var w4 := Switch("--elevated", o.elevated) + w5;
    ghost var w3 := Optional("--working-directory", o.workingDirectory) + w4;
    ghost var w2 := Optional("--app-name", o.applicationName) + w3;
    ghost var w1 := ["--run", o.targetPath] + w2;
    ghost var w0 := ["--profile", o.profileName] + w1;
    assert words + w0 == Words(o, event);
    Regroup(words, ["--profile", o.profileName], w1);
    line := AddOption(line, words, "--profile", o.profileName);
    words := words + ["--profile", o.profileName];
    Regroup(words, ["--run", o.targetPath], w2);
    line := AddOption(line, words, "--run", o.targetPath);
    words := words + ["--run", o.targetPath];
    assert words + w2 == Words(o, event);
    line := PrintOptional(line, words, o, event);
  }

  method AddOptional(line: string, ghost words: seq<string>, name: string, value: string)
    returns (longer: string)
    requires " " + line == Spaced(words)
    requires name != "" && forall c :: c in name ==> !IsBlank(c) && c != '"'
    ensures " " + longer == Spaced(words + Optional(name, value))
  {
    longer := line;
    if value != "" { longer := AddOption(line, words, name, value); }
    assert words + [] == words;
  }

  method AddSwitchIf(line: string, ghost words: seq<string>, name: string, on: bool)
    returns (longer: string)
    requires " " + line == Spaced(words)
    requires name != "" && forall c :: c in name ==> !IsBlank(c) && c != '"'
    ensures " " + longer == Spaced(words + Switch(name, on))
  {
    longer := line;
    if on { longer := AddSwitch(line, words, name); }
    assert words + [] == words;
  }

  method PrintOptional(head: string, ghost before: seq<string>, o: AutomationOptions, event: string)
    returns (line: string)
    requires " " + head == Spaced(before)
    ensures " " + line == Spaced(before +
            (Optional("--app-name", o.applicationName) + (Optional("--working-directory", o.workingDirectory) +
            (Switch("--elevated", o.elevated) + (Switch("--packaged", o.packaged) +
            (Switch("--shortcut", o.shortcut) + Optional("--bootstrap-event", event)))))))
  {
    hide Spaced, Optional, Switch;
    line := head;
    ghost var words := before;
    ghost var w7 := Optional("--bootstrap-event", event);
    ghost var w6 := Switch("--shortcut", o.shortcut) + w7;
    ghost var w5 := Switch("--packaged", o.packaged) + w6;
    ghost var w4 := Switch("--elevated", o.elevated) + w5;
    ghost var w3 := Optional("--working-directory", o.workingDirectory) + w4;
    Regroup(words, Optional("--app-name", o.applicationName), w3);
    line := AddOptional(line, words, "--app-name", o.applicationName);
    words := words + Optional("--app-name", o.applicationName);
    Regroup(words, Optional("--working-directory", o.workingDirectory), w4);
    line := AddOptional(line, words, "--working-directory", o.workingDirectory);
    words := words + Optional("--working-directory", o.workingDirectory);
    Regroup(words, Switch("--elevated", o.elevated), w5);
    line := AddSwitchIf(line, words, "--elevated", o.elevated);
    words := words + Switch("--elevated", o.elevated);
    Regroup(words, Switch("--packaged", o.packaged), w6);
    line := AddSwitchIf(line, words, "--packaged", o.packaged);
    words := words + Switch("--packaged", o.packaged);
    Regroup(words, Switch("--shortcut", o.shortcut), w7);
    line := AddSwitchIf(line, words, "--shortcut", o.shortcut);
    words := words + Switch("--shortcut", o.shortcut);
    line := AddOptional(line, words, "--bootstrap-event", event);
    words := words + Optional("--bootstrap-event", event);
  }

  /** Each argument quoted, with a blank in front. */
  method AppendSpaced(text: string, words: seq<string>) returns (longer: string)
    ensures longer == text + Spaced(words)
  {
    hide Spaced;
    longer := text;
    SpacedNone();
    assert words[..0] == [] && text + "" == text;
    for i := 0 to |words|
      invariant longer == text + Spaced(words[..i])
    {
      var quoted := QuoteCommandLineArgument(words[i]);
      SpacedLast(words, i);
      Regroup(text, Spaced(words[..i]), " " + quoted);
      longer := longer + (" " + quoted);
    }
    assert words[..|words|] == words;
  }

  lemma SpacedNone()
    ensures Spaced([]) == ""
  {
  }

  method PrintTail(head: string, o: AutomationOptions) returns (line: string)
    ensures line == head + Tail(o)
  {
    hide Spaced;
    line := head;
    if o.initialArguments != "" || o.targetArguments != [] {
      var tail := " --";
      if o.initialArguments != "" { tail := tail + (" " + o.initialArguments); }
      tail := AppendSpaced(tail, o.targetArguments);
      if o.initialArguments != "" {
        Regroup(" --", " " + o.initialArguments, Spaced(o.targetArguments));
      }
      line := line + tail;
    } else {
      assert head + "" == head;
    }
  }

  lemma SpacedLast(words: seq<string>, i: nat)
    requires i < |words|
    ensures Spaced(words[..i + 1]) == Spaced(words[..i]) + SpacedWord(words[i])
  {
    assert words[..i + 1] == words[..i] + [words[i]];
    SpacedConcat(words[..i], [words[i]]);
    assert [words[i]][1..] == [];
  }
}
