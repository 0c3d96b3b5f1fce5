/** Which words of a command line are options, and what an accepted command line says. */
module OptionWords {
  import opened Text
  import opened Argv
  import opened RawTail
  import opened Automation

  // ---- Spellings ----

  /** How an option is spelled in lower case; nothing spells the unknown. */
  function Spellings(n: Name): set<string> {
    match n
    case Dashes => {"--"}
    case Auto => {"--auto"}
    case Profile => {"--profile"}
    case RunTarget => {"--run"}
    case Elevated => {"--elevated"}
    case Packaged => {"--packaged"}
    case Shortcut => {"--shortcut"}
    case Initial => {"--arguments"}
    case ApplicationName => {"--app-name"}
    case Directory => {"--working-directory"}
    case BootstrapEvent => {"--bootstrap-event"}
    case Help => {"/?", "-?", "--help"}
    case Other => {}
  }

  lemma ClassifiedAsSpelled(name: string, n: Name)
    requires !n.Other?
    ensures Classify(name) == n <==> name in Spellings(n)
  {
  }

  /** A word is an option exactly when it differs from a spelling of it in case only. */
  lemma RecognizedIgnoringCase(lower: string -> string, word: string, n: Name)
    requires FoldsCase(lower) && !n.Other?
    ensures Classify(lower(word)) == n <==> exists s :: s in Spellings(n) && lower(word) == lower(s)
  {
    ClassifiedAsSpelled(lower(word), n);
    forall s | s in Spellings(n) ensures lower(s) == s {
      ClassifiedAsSpelled(s, n);
    }
    if Classify(lower(word)) == n {
      assert lower(lower(word)) == lower(word);
    }
  }

  // ---- Positions ----

  function NameAt(lower: string -> string, argv: seq<string>, j: nat): Name
    requires j < |argv|
  {
    Classify(lower(argv[j]))
  }

  /** A position is read as an option if it is the first, or follows an option without value, or the value of one. */
  predicate Reads(lower: string -> string, argv: seq<string>, j: nat) {
    1 <= j <= |argv| &&
    (|| j == 1
     || (Reads(lower, argv, j - 1) && !TakesValue(NameAt(lower, argv, j - 1)) && !NameAt(lower, argv, j - 1).Dashes?)
     || (j >= 3 && Reads(lower, argv, j - 2) && TakesValue(NameAt(lower, argv, j - 2))))
  }

  /** Where reading goes on after an option. */
  function After(lower: string -> string, argv: seq<string>, i: nat): nat
    requires i < |argv|
  {
    if TakesValue(NameAt(lower, argv, i)) then i + 2 else i + 1
  }

  /** There is one way through the words: nothing is read between an option and the next one, and nothing after "--". */
  lemma {:induction false} OneWay(lower: string -> string, argv: seq<string>, i: nat, j: nat)
    requires Reads(lower, argv, i) && Reads(lower, argv, j) && i < j
    ensures !NameAt(lower, argv, i).Dashes? && After(lower, argv, i) <= j
    decreases j
  {
    hide Classify;
    if Reads(lower, argv, j - 1) && !TakesValue(NameAt(lower, argv, j - 1)) && !NameAt(lower, argv, j - 1).Dashes? {
      if i < j - 1 {
        OneWay(lower, argv, i, j - 1);
      }
    } else {
      assert Reads(lower, argv, j - 2) && TakesValue(NameAt(lower, argv, j - 2));
      if i < j - 2 {
        OneWay(lower, argv, i, j - 2);
      } else if i == j - 1 {
        OneWay(lower, argv, j - 2, i);
      }
    }
  }

  /** A value is never read as an option, and neither is anything after "--". */
  lemma ValuesAreNotRead(lower: string -> string, argv: seq<string>, i: nat)
    requires Reads(lower, argv, i) && i < |argv|
    ensures TakesValue(NameAt(lower, argv, i)) ==> !Reads(lower, argv, i + 1)
    ensures NameAt(lower, argv, i).Dashes? ==> forall j :: j > i ==> !Reads(lower, argv, j)
  {
    forall j | j > i && Reads(lower, argv, j) ensures !NameAt(lower, argv, i).Dashes? && After(lower, argv, i) <= j {
      OneWay(lower, argv, i, j);
    }
  }

  /** This option is read at one of the first positions. */
  ghost predicate Given(lower: string -> string, argv: seq<string>, n: Name, end: nat) {
    exists j :: 1 <= j < end && j < |argv| && Reads(lower, argv, j) && NameAt(lower, argv, j) == n
  }

  lemma NothingBetween(lower: string -> string, argv: seq<string>, i: nat)
    requires Reads(lower, argv, i) && i < |argv|
    ensures forall j :: i < j < After(lower, argv, i) ==> !Reads(lower, argv, j)
  {
    hide NameAt;
    forall j | i < j < After(lower, argv, i) && Reads(lower, argv, j) ensures false {
      OneWay(lower, argv, i, j);
    }
  }

  lemma GivenHere(lower: string -> string, argv: seq<string>, i: nat, n: Name)
    requires Reads(lower, argv, i) && i < |argv|
    ensures Given(lower, argv, n, After(lower, argv, i)) <==> Given(lower, argv, n, i) || n == NameAt(lower, argv, i)
  {
    NothingBetween(lower, argv, i);
    var next := After(lower, argv, i);
    hide NameAt, Reads, After;
    if Given(lower, argv, n, next) {
      var j :| 1 <= j < next && j < |argv| && Reads(lower, argv, j) && NameAt(lower, argv, j) == n;
      assert j < i || j == i;
    }
  }

  lemma GoesOn(lower: string -> string, argv: seq<string>, i: nat)
    requires Reads(lower, argv, i) && i < |argv| && !NameAt(lower, argv, i).Dashes? && After(lower, argv, i) <= |argv|
    ensures Reads(lower, argv, After(lower, argv, i))
  {
    hide NameAt;
  }

  /** Help is asked for exactly by a help word that is read as an option. */
  lemma HelpIsFound(lower: string -> string, argv: seq<string>)
    ensures HelpRequested(lower, argv, 1) <==> Given(lower, argv, Help, |argv|)
  {
    HelpIsFoundFrom(lower, argv, 1);
  }

  lemma {:induction false} HelpIsFoundFrom(lower: string -> string, argv: seq<string>, i: nat)
    requires (i <= |argv| ==> Reads(lower, argv, i)) && !Given(lower, argv, Help, i)
    ensures HelpRequested(lower, argv, i) <==> Given(lower, argv, Help, |argv|)
    decreases |argv| - i
  {
    hide Classify;
    if i < |argv| {
      var n := NameAt(lower, argv, i);
      if n.Dashes? {
        ValuesAreNotRead(lower, argv, i);
      } else {
        GivenHere(lower, argv, i, Help);
        if !n.Help? {
          if After(lower, argv, i) <= |argv| {
            GoesOn(lower, argv, i);
          }
          HelpIsFoundFrom(lower, argv, After(lower, argv, i));
        }
      }
    }
  }

  // ---- What has been read ----

  function Value(o: AutomationOptions, n: Name): string {
    match n
    case Profile => o.profileName
    case RunTarget => o.targetPath
    case Initial => o.initialArguments
    case Directory => o.workingDirectory
    case ApplicationName => o.applicationName
    case _ => o.bootstrapEventName
  }

  /** A word that looks like an option and is none. */
  predicate UnknownAt(lower: string -> string, argv: seq<string>, j: nat)
    requires j < |argv|
  {
    Reads(lower, argv, j) && NameAt(lower, argv, j) in {Other, Help} && "--" <= lower(argv[j])
  }

  ghost predicate HasUnknown(lower: string -> string, argv: seq<string>, end: nat) {
    exists j :: 1 <= j < end && j < |argv| && UnknownAt(lower, argv, j)
  }

  /** The word after an option is its value. */
  ghost predicate HasValue(lower: string -> string, argv: seq<string>, j: nat, o: AutomationOptions)
    requires j < |argv|
  {
    Reads(lower, argv, j) && TakesValue(NameAt(lower, argv, j)) ==>
      j + 1 < |argv| && argv[j + 1] != "" && Value(o, NameAt(lower, argv, j)) == argv[j + 1]
  }

  ghost predicate IsLastUnknown(lower: string -> string, argv: seq<string>, end: nat, j: nat, word: string) {
    && 1 <= j < end && j < |argv| && UnknownAt(lower, argv, j) && lower(argv[j]) == word
    && forall k :: j < k < end && k < |argv| ==> !UnknownAt(lower, argv, k)
  }

  /** The last of the unknown words; none if there is none. */
  ghost predicate UnknownSaid(lower: string -> string, argv: seq<string>, end: nat, unknown: string) {
    if unknown == "" then !HasUnknown(lower, argv, end) else exists j :: IsLastUnknown(lower, argv, end, j, unknown)
  }

  lemma UnknownIsKnown(lower: string -> string, argv: seq<string>, end: nat, unknown: string)
    requires UnknownSaid(lower, argv, end, unknown)
    ensures unknown != "" <==> HasUnknown(lower, argv, end)
  {
    hide UnknownAt;
  }

  ghost predicate FlagsSaid(lower: string -> string, argv: seq<string>, end: nat, o: AutomationOptions) {
    forall n :: IsFlag(n) ==> (Flag(o, n) <==> Given(lower, argv, n, end))
  }

  ghost predicate SeenSaid(lower: string -> string, argv: seq<string>, end: nat, seen: set<Name>) {
    forall n :: TakesValue(n) ==> (n in seen <==> Given(lower, argv, n, end))
  }

  ghost predicate ValuesSaid(lower: string -> string, argv: seq<string>, end: nat, o: AutomationOptions) {
    && (forall n :: TakesValue(n) && !Given(lower, argv, n, end) ==> Value(o, n) == "")
    && (forall j :: 1 <= j < end && j < |argv| ==> HasValue(lower, argv, j, o))
  }

  /** The options say what the words at the first positions say, and nothing else. */
  ghost predicate Describes(lower: string -> string, argv: seq<string>, end: nat, p: Progress) {
    && FlagsSaid(lower, argv, end, p.options) && SeenSaid(lower, argv, end, p.seen) && ValuesSaid(lower, argv, end, p.options)
    && UnknownSaid(lower, argv, end, p.unknown)
    && !p.options.showHelp && p.options.targetArguments == []
  }

  /** This position makes the line unacceptable, whatever follows. */
  ghost predicate Faulty(lower: string -> string, line: string, program: string, argv: seq<string>, i: nat)
    requires i < |argv|
  {
    var n := NameAt(lower, argv, i);
    Reads(lower, argv, i) &&
    (|| ((IsFlag(n) || TakesValue(n)) && Given(lower, argv, n, i))
     || (TakesValue(n) && (i + 1 >= |argv| || argv[i + 1] == ""))
     || (n in {Other, Help} && Given(lower, argv, Auto, i))
     || (n.Dashes? && RawTailAfter(line, i, program).None?))
  }

  lemma GivenToTheEnd(lower: string -> string, argv: seq<string>, i: nat, n: Name)
    requires Reads(lower, argv, i) && i < |argv| && NameAt(lower, argv, i).Dashes?
    ensures Given(lower, argv, n, |argv|) <==> Given(lower, argv, n, i) || n.Dashes?
  {
    ValuesAreNotRead(lower, argv, i);
    GivensEnd(lower, argv, i, n);
  }

  lemma GivensEnd(lower: string -> string, argv: seq<string>, i: nat, n: Name)
    requires 1 <= i < |argv| && Reads(lower, argv, i) && forall j :: j > i ==> !Reads(lower, argv, j)
    ensures Given(lower, argv, n, |argv|) <==> Given(lower, argv, n, i) || n == NameAt(lower, argv, i)
  {
    hide Reads, NameAt;
  }

  lemma UnknownWithNext(lower: string -> string, argv: seq<string>, i: nat, unknown: string, now: string)
    requires Reads(lower, argv, i) && i < |argv| && UnknownSaid(lower, argv, i, unknown)
    requires now == if UnknownAt(lower, argv, i) then lower(argv[i]) else unknown
    ensures UnknownSaid(lower, argv, After(lower, argv, i), now)
  {
    NothingBetween(lower, argv, i);
    UnknownIsRead(lower, argv);
    assert UnknownAt(lower, argv, i) ==> now != "";
    hide Reads, UnknownAt, UnknownSaid;
    UnknownMoves(lower, argv, i, After(lower, argv, i), unknown, now);
  }

  lemma UnknownMoves(lower: string -> string, argv: seq<string>, i: nat, next: nat, unknown: string, now: string)
    requires 1 <= i < next && i < |argv| && UnknownSaid(lower, argv, i, unknown)
    requires forall k :: i < k < next && k < |argv| ==> !UnknownAt(lower, argv, k)
    requires if UnknownAt(lower, argv, i) then now == lower(argv[i]) && now != "" else now == unknown
    ensures UnknownSaid(lower, argv, next, now)
  {
    hide UnknownAt;
    if UnknownAt(lower, argv, i) {
      assert IsLastUnknown(lower, argv, next, i, now);
    } else if unknown != "" {
      var j :| IsLastUnknown(lower, argv, i, j, unknown);
      assert IsLastUnknown(lower, argv, next, j, now);
    }
  }

  lemma UnknownIsRead(lower: string -> string, argv: seq<string>)
    ensures forall j :: 0 <= j < |argv| && UnknownAt(lower, argv, j) ==> Reads(lower, argv, j)
  {
  }

  /** What is said to the user about a faulty word: a repeated option first, then a missing value. */
  ghost predicate IsFault(lower: string -> string, argv: seq<string>, i: nat, error: ParseError)
    requires i < |argv|
  {
    var n, word := NameAt(lower, argv, i), lower(argv[i]);
    if n.Dashes? then error == BoundaryNotFound
    else if n in {Other, Help} then error == UnknownOption(word)
    else if Given(lower, argv, n, i) then error == Duplicate(word)
    else error == if i + 1 >= |argv| then MissingValue(word) else EmptyValue(word)
  }

  /** A word is refused exactly if it is faulty. */
  lemma RefusedIfFaulty(lower: string -> string, line: string, program: string, argv: seq<string>, i: nat, p: Progress)
    requires Reads(lower, argv, i) && i < |argv| && Describes(lower, argv, i, p)
    ensures Take(lower, line, program, argv, i, p).Reject? <==> Faulty(lower, line, program, argv, i)
    ensures var next := Take(lower, line, program, argv, i, p); next.Reject? ==> IsFault(lower, argv, i, next.error)
  {
    hide Classify, Given, UnknownSaid, HasValue, Reads;
    assert Flag(p.options, Auto) == p.options.enabled;
  }

  lemma FlagsWithNext(lower: string -> string, argv: seq<string>, i: nat, o: AutomationOptions, q: AutomationOptions)
    requires Reads(lower, argv, i) && i < |argv| && FlagsSaid(lower, argv, i, o)
    requires forall m :: IsFlag(m) ==> (Flag(q, m) <==> m == NameAt(lower, argv, i) || Flag(o, m))
    ensures FlagsSaid(lower, argv, After(lower, argv, i), q)
  {
    forall m | IsFlag(m) ensures Flag(q, m) <==> Given(lower, argv, m, After(lower, argv, i)) {
      GivenHere(lower, argv, i, m);
      hide Given, NameAt, After, Flag;
    }
  }

  lemma SeenWithNext(lower: string -> string, argv: seq<string>, i: nat, seen: set<Name>, now: set<Name>)
    requires Reads(lower, argv, i) && i < |argv| && SeenSaid(lower, argv, i, seen)
    requires forall m :: TakesValue(m) ==> (m in now <==> m == NameAt(lower, argv, i) || m in seen)
    ensures SeenSaid(lower, argv, After(lower, argv, i), now)
  {
    forall m | TakesValue(m) ensures m in now <==> Given(lower, argv, m, After(lower, argv, i)) {
      GivenHere(lower, argv, i, m);
      hide Given, NameAt, After;
    }
  }

  lemma EmptyWithNext(lower: string -> string, argv: seq<string>, i: nat, o: AutomationOptions, q: AutomationOptions)
    requires Reads(lower, argv, i) && i < |argv| && ValuesSaid(lower, argv, i, o)
    requires forall m :: TakesValue(m) && m != NameAt(lower, argv, i) ==> Value(q, m) == Value(o, m)
    ensures forall m :: TakesValue(m) && !Given(lower, argv, m, After(lower, argv, i)) ==> Value(q, m) == ""
  {
    forall m | TakesValue(m) && !Given(lower, argv, m, After(lower, argv, i)) ensures Value(q, m) == "" {
      GivenHere(lower, argv, i, m);
      hide Given, NameAt, After, Value, HasValue;
    }
  }

  lemma ValueStays(lower: string -> string, argv: seq<string>, i: nat, j: nat, o: AutomationOptions, q: AutomationOptions)
    requires 1 <= j < i < |argv| && ValuesSaid(lower, argv, i, o)
    requires TakesValue(NameAt(lower, argv, i)) ==> !Given(lower, argv, NameAt(lower, argv, i), i)
    requires forall m :: TakesValue(m) && m != NameAt(lower, argv, i) ==> Value(q, m) == Value(o, m)
    ensures HasValue(lower, argv, j, q)
  {
    assert HasValue(lower, argv, j, o);
    hide NameAt, Value;
  }

  lemma ValuesWithNext(lower: string -> string, argv: seq<string>, i: nat, o: AutomationOptions, q: AutomationOptions)
    requires Reads(lower, argv, i) && i < |argv| && ValuesSaid(lower, argv, i, o)
    requires forall m :: TakesValue(m) && m != NameAt(lower, argv, i) ==> Value(q, m) == Value(o, m)
    requires var n := NameAt(lower, argv, i);
             TakesValue(n) ==> !Given(lower, argv, n, i) && i + 1 < |argv| && argv[i + 1] != "" && Value(q, n) == argv[i + 1]
    ensures ValuesSaid(lower, argv, After(lower, argv, i), q)
  {
    EmptyWithNext(lower, argv, i, o, q);
    NothingBetween(lower, argv, i);
    assert HasValue(lower, argv, i, q);
    forall j | 1 <= j < After(lower, argv, i) && j < |argv| && j != i ensures HasValue(lower, argv, j, q) {
      if j < i {
        hide After, Value, Given, NameAt, Reads, TakesValue;
        ValueStays(lower, argv, i, j, o, q);
      } else {
        hide After, Value, NameAt;
      }
    }
    hide After, Value, Given, NameAt, Reads, HasValue;
  }

  /** What one more word does to the options. */
  lemma WhatOneWordDoes(lower: string -> string, line: string, program: string, argv: seq<string>, i: nat, p: Progress)
    requires i < |argv| && Take(lower, line, program, argv, i, p).Continue?
    ensures var next, n := Take(lower, line, program, argv, i, p), NameAt(lower, argv, i);
            var o, q := p.options, next.progress.options;
            && next.index == After(lower, argv, i) && !n.Dashes?
            && (forall m :: IsFlag(m) ==> (Flag(q, m) <==> m == n || Flag(o, m)))
            && (forall m :: TakesValue(m) ==> (m in next.progress.seen <==> m == n || m in p.seen))
            && (forall m :: TakesValue(m) && m != n ==> Value(q, m) == Value(o, m))
            && (TakesValue(n) ==> n !in p.seen && i + 1 < |argv| && argv[i + 1] != "" && Value(q, n) == argv[i + 1])
            && next.progress.unknown == (if n in {Other, Help} && "--" <= lower(argv[i]) then lower(argv[i]) else p.unknown)
            && q.showHelp == o.showHelp && q.targetArguments == o.targetArguments
  {
    hide Classify;
  }

  /** Each word adds what it says, and nothing else. */
  lemma DescribedWithNext(lower: string -> string, line: string, program: string, argv: seq<string>, i: nat, p: Progress)
    requires Reads(lower, argv, i) && i < |argv| && Describes(lower, argv, i, p)
    requires Take(lower, line, program, argv, i, p).Continue?
    ensures var next := Take(lower, line, program, argv, i, p);
            Reads(lower, argv, next.index) && Describes(lower, argv, next.index, next.progress)
  {
    hide NameAt, Take, Value, Flag, Given, UnknownSaid, Reads;
    var next := Take(lower, line, program, argv, i, p);
    WhatOneWordDoes(lower, line, program, argv, i, p);
    GoesOn(lower, argv, i);
    assert UnknownAt(lower, argv, i) <==> NameAt(lower, argv, i) in {Other, Help} && "--" <= lower(argv[i]);
    UnknownWithNext(lower, argv, i, p.unknown, next.progress.unknown);
    SeenWithNext(lower, argv, i, p.seen, next.progress.seen);
    FlagsWithNext(lower, argv, i, p.options, next.progress.options);
    ValuesWithNext(lower, argv, i, p.options, next.progress.options);
  }

  lemma NothingReadYet(lower: string -> string, argv: seq<string>)
    requires |argv| >= 1
    ensures Reads(lower, argv, 1) && Describes(lower, argv, 1, START)
  {
  }

  // ---- The whole line ----

  ghost predicate HasFault(lower: string -> string, line: string, program: string, argv: seq<string>, end: nat) {
    exists j :: 1 <= j < end && j < |argv| && Faulty(lower, line, program, argv, j)
  }

  /** The error is about the first faulty word. */
  ghost predicate FirstFault(lower: string -> string, line: string, program: string, argv: seq<string>, error: ParseError) {
    exists j :: 1 <= j < |argv| && Faulty(lower, line, program, argv, j) && !HasFault(lower, line, program, argv, j) &&
      IsFault(lower, argv, j, error)
  }

  /** The raw text after a "--" that is read as such; nothing if there is none. */
  ghost predicate IsTail(lower: string -> string, line: string, program: string, argv: seq<string>, tail: string) {
    if Given(lower, argv, Dashes, |argv|) then
      exists j :: 1 <= j < |argv| && Reads(lower, argv, j) && NameAt(lower, argv, j).Dashes? && RawTailAfter(line, j, program) == Some(tail)
    else tail == ""
  }

  function WithTail(p: Progress, tail: string): Progress {
    p.(options := p.options.(initialArguments := AppendTail(p.options.initialArguments, tail)))
  }

  lemma FaultHere(lower: string -> string, line: string, program: string, argv: seq<string>, i: nat)
    requires Reads(lower, argv, i) && i < |argv|
    ensures HasFault(lower, line, program, argv, After(lower, argv, i)) <==>
      HasFault(lower, line, program, argv, i) || Faulty(lower, line, program, argv, i)
  {
    NothingBetween(lower, argv, i);
    var next := After(lower, argv, i);
    hide NameAt, After, Reads;
    if HasFault(lower, line, program, argv, next) {
      var j :| 1 <= j < next && j < |argv| && Faulty(lower, line, program, argv, j);
      assert j < i || j == i;
    }
  }

  /** After "--" there is nothing more to describe. */
  lemma DescribedAtDashes(lower: string -> string, argv: seq<string>, i: nat, p: Progress)
    requires Reads(lower, argv, i) && i < |argv| && NameAt(lower, argv, i).Dashes? && Describes(lower, argv, i, p)
    ensures Describes(lower, argv, |argv|, p)
  {
    forall n ensures Given(lower, argv, n, |argv|) <==> Given(lower, argv, n, i) || n.Dashes? {
      GivenToTheEnd(lower, argv, i, n);
    }
    UnknownToTheEnd(lower, argv, i, p.unknown);
    ValuesToTheEnd(lower, argv, i, p.options);
    hide Given, NameAt, Reads, UnknownSaid, HasValue, Value;
  }

  lemma UnknownToTheEnd(lower: string -> string, argv: seq<string>, i: nat, unknown: string)
    requires Reads(lower, argv, i) && i < |argv| && NameAt(lower, argv, i).Dashes? && UnknownSaid(lower, argv, i, unknown)
    ensures UnknownSaid(lower, argv, |argv|, unknown)
  {
    ValuesAreNotRead(lower, argv, i);
    UnknownIsRead(lower, argv);
    assert !UnknownAt(lower, argv, i);
    hide Reads, NameAt, UnknownAt;
    assert forall k :: i <= k < |argv| ==> !UnknownAt(lower, argv, k);
    if unknown != "" {
      var j :| IsLastUnknown(lower, argv, i, j, unknown);
      assert IsLastUnknown(lower, argv, |argv|, j, unknown);
    }
  }

  lemma ValuesToTheEnd(lower: string -> string, argv: seq<string>, i: nat, o: AutomationOptions)
    requires Reads(lower, argv, i) && i < |argv| && NameAt(lower, argv, i).Dashes? && ValuesSaid(lower, argv, i, o)
    ensures forall j :: 1 <= j < |argv| ==> HasValue(lower, argv, j, o)
  {
    ValuesAreNotRead(lower, argv, i);
    hide Reads, NameAt, Value;
    forall j | 1 <= j < |argv| ensures HasValue(lower, argv, j, o) {
      if j < i {
        assert HasValue(lower, argv, j, o);
      }
    }
  }

  lemma FaultyIsRead(lower: string -> string, line: string, program: string, argv: seq<string>)
    ensures forall j :: 0 <= j < |argv| && Faulty(lower, line, program, argv, j) ==> Reads(lower, argv, j)
  {
  }

  lemma FaultAtDashes(lower: string -> string, line: string, program: string, argv: seq<string>, i: nat)
    requires Reads(lower, argv, i) && i < |argv| && NameAt(lower, argv, i).Dashes?
    requires !HasFault(lower, line, program, argv, i)
    ensures HasFault(lower, line, program, argv, |argv|) <==> Faulty(lower, line, program, argv, i)
  {
    ValuesAreNotRead(lower, argv, i);
    FaultyIsRead(lower, line, program, argv);
    FaultsEnd(lower, line, program, argv, i);
  }

  lemma FaultsEnd(lower: string -> string, line: string, program: string, argv: seq<string>, i: nat)
    requires 1 <= i < |argv| && !HasFault(lower, line, program, argv, i)
    requires forall j :: i < j < |argv| ==> !Faulty(lower, line, program, argv, j)
    ensures HasFault(lower, line, program, argv, |argv|) <==> Faulty(lower, line, program, argv, i)
  {
    hide Faulty;
  }

  /** A line is refused half-way exactly if it has a fault; otherwise what comes out describes all of its words. */
  lemma {:induction false} TakeAllMeans(lower: string -> string, line: string, program: string, argv: seq<string>, i: nat, p: Progress)
      returns (read: Progress, tail: string)
    requires Reads(lower, argv, i) && Describes(lower, argv, i, p) && !Given(lower, argv, Dashes, i)
    requires !HasFault(lower, line, program, argv, i)
    ensures TakeAll(lower, line, program, argv, i, p).Reject? <==> HasFault(lower, line, program, argv, |argv|)
    ensures var last := TakeAll(lower, line, program, argv, i, p);
            last.Reject? ==> FirstFault(lower, line, program, argv, last.error)
    ensures !HasFault(lower, line, program, argv, |argv|) ==>
      && TakeAll(lower, line, program, argv, i, p) == Stop(WithTail(read, tail))
      && Describes(lower, argv, |argv|, read) && IsTail(lower, line, program, argv, tail)
    decreases |argv| - i
  {
    read, tail := p, "";
    if i < |argv| {
      RefusedIfFaulty(lower, line, program, argv, i, p);
      match Take(lower, line, program, argv, i, p)
      case Continue(j, q) =>
        hide Take, Describes, NameAt, Reads, Given, HasFault, Faulty, IsTail;
        GivenHere(lower, argv, i, Dashes);
        FaultHere(lower, line, program, argv, i);
        DescribedWithNext(lower, line, program, argv, i, p);
        read, tail := TakeAllMeans(lower, line, program, argv, j, q);
      case Reject(_) =>
        assert HasFault(lower, line, program, argv, |argv|);
      case Stop(_) =>
        hide Describes, Reads, Given, HasFault, Faulty;
        DescribedAtDashes(lower, argv, i, p);
        FaultAtDashes(lower, line, program, argv, i);
        GivenToTheEnd(lower, argv, i, Dashes);
        tail := RawTailAfter(line, i, program).value;
    }
  }

  /** The options say exactly what the words of the line say. */
  ghost predicate Says(lower: string -> string, line: string, program: string, argv: seq<string>, o: AutomationOptions) {
    && FlagsSaid(lower, argv, |argv|, o) && !o.showHelp && o.targetArguments == []
    && exists tail, typed ::
         && IsTail(lower, line, program, argv, tail) && JoinedBySpace(typed, tail, o.initialArguments)
         && ValuesSaid(lower, argv, |argv|, o.(initialArguments := typed))
  }

  /** What makes an accepted automation line. */
  ghost predicate Complete(lower: string -> string, argv: seq<string>) {
    Given(lower, argv, Profile, |argv|) && Given(lower, argv, RunTarget, |argv|) && !HasUnknown(lower, argv, |argv|)
  }

  /**
   Every line has one of four outcomes, and its words alone decide which: help; a refusal, when some
   option is repeated, empty or unknown; the plain program, without "--auto"; or an automated launch
   whose options say what the words say.
   */
  lemma ParseDecides(lower: string -> string, line: string, program: string)
    ensures var argv, outcome := Arguments(line, program), Parse(lower, line, program);
            var help, fault := Given(lower, argv, Help, |argv|), HasFault(lower, line, program, argv, |argv|);
            var auto := Given(lower, argv, Auto, |argv|);
            && (help ==> outcome == Parsed(DEFAULT_OPTIONS.(showHelp := true)))
            && (!help && fault ==> outcome.Rejected? && FirstFault(lower, line, program, argv, outcome.error))
            && (!help && !fault && auto ==> (outcome.Parsed? <==> Complete(lower, argv)))
            && (!help && !fault && outcome.Rejected? ==>
                  if HasUnknown(lower, argv, |argv|) then
                    outcome.error.UnknownOption? && exists j :: IsLastUnknown(lower, argv, |argv|, j, outcome.error.option)
                  else outcome.error == ProfileAndRunRequired)
            && (!help && !fault && !auto ==> outcome.Parsed? && !outcome.options.enabled)
            && (!help && outcome.Parsed? ==> Says(lower, line, program, argv, outcome.options))
  {
    var argv := Arguments(line, program);
    ArgumentsNonEmpty(line, program);
    hide Arguments, HelpRequested, TakeAll, Given, HasFault, FirstFault, Reads, NameAt, IsTail, HasUnknown, ValuesSaid, IsLastUnknown;
    HelpIsFound(lower, argv);
    NothingReadYet(lower, argv);
    NothingBefore(lower, line, program, argv);
    if !HelpRequested(lower, argv, 1) {
      var read, tail := TakeAllMeans(lower, line, program, argv, 1, START);
      if !HasFault(lower, line, program, argv, |argv|) {
        var o := WithTail(read, tail).options;
        assert o.(initialArguments := read.options.initialArguments) == read.options;
        assert Flag(o, Auto) == o.enabled;
        TailKeepsFlags(lower, argv, read, tail);
        UnknownIsKnown(lower, argv, |argv|, read.unknown);
        TailIsJoined(read.options.initialArguments, tail);
      }
    }
  }

  lemma TailIsJoined(typed: string, tail: string)
    ensures JoinedBySpace(typed, tail, AppendTail(typed, tail))
  {
  }

  lemma NothingBefore(lower: string -> string, line: string, program: string, argv: seq<string>)
    ensures !Given(lower, argv, Dashes, 1) && !HasFault(lower, line, program, argv, 1)
  {
  }

  lemma TailKeepsFlags(lower: string -> string, argv: seq<string>, read: Progress, tail: string)
    requires FlagsSaid(lower, argv, |argv|, read.options)
    ensures FlagsSaid(lower, argv, |argv|, WithTail(read, tail).options)
  {
    hide Given;
  }

  /** A value is empty exactly if its option is not given. */
  lemma ValueIfGiven(lower: string -> string, argv: seq<string>, o: AutomationOptions, n: Name)
    requires ValuesSaid(lower, argv, |argv|, o) && TakesValue(n)
    ensures Value(o, n) != "" <==> Given(lower, argv, n, |argv|)
  {
    hide NameAt, Reads;
    if Given(lower, argv, n, |argv|) {
      var j :| 1 <= j < |argv| && Reads(lower, argv, j) && NameAt(lower, argv, j) == n;
      assert HasValue(lower, argv, j, o);
    }
  }

  /** On a line without a fault every option occurs once at most. */
  lemma GivenOnce(lower: string -> string, line: string, program: string, argv: seq<string>, i: nat, j: nat)
    requires !HasFault(lower, line, program, argv, |argv|) && 1 <= i < j < |argv|
    requires Reads(lower, argv, i) && Reads(lower, argv, j)
    ensures NameAt(lower, argv, i) == NameAt(lower, argv, j) ==> NameAt(lower, argv, i) in {Other, Help}
  {
    hide NameAt, Reads;
    if NameAt(lower, argv, i) == NameAt(lower, argv, j) {
      assert Given(lower, argv, NameAt(lower, argv, j), j);
      assert !Faulty(lower, line, program, argv, j);
      OneWay(lower, argv, i, j);
    }
  }
}
