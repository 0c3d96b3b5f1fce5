/** What an entry adds to the log, in terms of the lines of its text and the digits of its time. */
module LogEntries {
  import opened Text
  import opened LogText

  // ---- Lines of a text ----

  predicate InOneLine(s: string) {
    '\r' !in s && '\n' !in s
  }

  /** The text is these lines with these breaks between them; CR and LF together are one break. */
  ghost predicate MadeOf(s: string, lines: seq<string>, breaks: seq<string>)
    decreases |lines|
  {
    && |lines| == |breaks| + 1 && InOneLine(lines[0])
    && if breaks == [] then s == lines[0]
       else
         var k := |lines[0]| + |breaks[0]|;
         && breaks[0] in {"\r\n", "\r", "\n"} && k <= |s| && s[..k] == lines[0] + breaks[0]
         && !(breaks[0] == "\r" && k < |s| && s[k] == '\n')
         && MadeOf(s[k..], lines[1..], breaks[1..])
  }

  predicate AllInOneLine(lines: seq<string>) {
    forall i | 0 <= i < |lines| :: InOneLine(lines[i])
  }

  lemma FirstInOneLine(lines: seq<string>)
    requires lines != []
    ensures AllInOneLine(lines) <==> InOneLine(lines[0]) && AllInOneLine(lines[1..])
  {
    hide InOneLine;
    if AllInOneLine(lines[1..]) && InOneLine(lines[0]) {
      forall i | 0 <= i < |lines| ensures InOneLine(lines[i]) {
        assert i > 0 ==> lines[i] == lines[1..][i - 1];
      }
    }
  }

  lemma {:induction false} MadeOfLines(s: string, lines: seq<string>, breaks: seq<string>)
    requires MadeOf(s, lines, breaks)
    ensures AllInOneLine(lines)
    decreases |lines|
  {
    FirstInOneLine(lines);
    hide InOneLine, AllInOneLine;
    if breaks == [] {
      NoneInOneLine(lines[1..]);
    } else {
      MadeOfLines(s[|lines[0]| + |breaks[0]|..], lines[1..], breaks[1..]);
    }
  }

  lemma NoneInOneLine(lines: seq<string>)
    requires lines == []
    ensures AllInOneLine(lines)
  {
  }

  /** Every text is made of lines. */
  lemma {:induction false} HasLines(s: string) returns (lines: seq<string>, breaks: seq<string>)
    ensures MadeOf(s, lines, breaks)
    decreases |s|
  {
    if InOneLine(s) {
      lines, breaks := [s], [];
    } else {
      var i := FirstBreak(s, 0);
      var end := if s[i] == '\r' && i + 1 < |s| && s[i + 1] == '\n' then "\r\n" else [s[i]];
      var k := i + |end|;
      lines, breaks := HasLines(s[k..]);
      assert ([s[..i]] + lines)[1..] == lines && ([end] + breaks)[1..] == breaks;
      assert s[..k] == s[..i] + end;
      lines, breaks := [s[..i]] + lines, [end] + breaks;
    }
  }

  lemma FirstBreak(s: string, from: nat) returns (i: nat)
    requires from <= |s| && InOneLine(s[..from]) && !InOneLine(s)
    ensures i < |s| && s[i] in {'\r', '\n'} && InOneLine(s[..i])
    decreases |s| - from
  {
    assert s[..|s|] == s;
    i := from;
    if s[from] !in {'\r', '\n'} {
      assert s[..from + 1] == s[..from] + [s[from]];
      i := FirstBreak(s, from + 1);
    }
  }

  /** The lines with one LF between each two of them. */
  function Joined(lines: seq<string>): string {
    if lines == [] then "" else if |lines| == 1 then lines[0] else lines[0] + "\n" + Joined(lines[1..])
  }

  lemma {:induction false} BreaksReplaced(s: string, lines: seq<string>, breaks: seq<string>)
    requires MadeOf(s, lines, breaks)
    ensures ReplaceBreaks(s) == Joined(lines)
    decreases |lines|
  {
    if breaks == [] {
      assert ReplaceBreaks("") == "" && lines[0] + "" == lines[0];
      hide ReplaceBreaks, InOneLine;
      LineStays(lines[0], "");
    } else {
      var k := |lines[0]| + |breaks[0]|;
      var rest := s[k..];
      assert s == lines[0] + (breaks[0] + rest);
      assert Joined(lines) == lines[0] + "\n" + Joined(lines[1..]);
      hide ReplaceBreaks, Joined, InOneLine;
      BreaksReplaced(rest, lines[1..], breaks[1..]);
      LineStays(lines[0], breaks[0] + rest);
      BreakReplaced(breaks[0], rest);
      hide MadeOf;
      Regroup(lines[0], "\n", Joined(lines[1..]));
    }
  }

  lemma BreakReplaced(end: string, rest: string)
    requires end in {"\r\n", "\r", "\n"} && !(end == "\r" && rest != "" && rest[0] == '\n')
    ensures ReplaceBreaks(end + rest) == "\n" + ReplaceBreaks(rest)
  {
    if end == "\r\n" {
      assert (end + rest)[2..] == rest;
    } else {
      assert (end + rest)[1..] == rest;
    }
  }

  lemma {:induction false} LineStays(line: string, rest: string)
    requires InOneLine(line)
    ensures ReplaceBreaks(line + rest) == line + ReplaceBreaks(rest)
    decreases |line|
  {
    if line == "" {
      assert line + rest == rest;
    } else {
      assert (line + rest)[1..] == line[1..] + rest;
      LineStays(line[1..], rest);
    }
  }

  /** How many lines are left without the empty ones at the end. */
  function Kept(lines: seq<string>): (k: nat)
    ensures k <= |lines| && (k > 0 ==> lines[k - 1] != "") && forall i :: k <= i < |lines| ==> lines[i] == ""
  {
    if lines == [] then 0 else if lines[|lines| - 1] != "" then |lines| else Kept(lines[..|lines| - 1])
  }

  lemma {:induction false} JoinedSnoc(lines: seq<string>, last: string)
    requires lines != []
    ensures Joined(lines + [last]) == Joined(lines) + "\n" + last
    decreases |lines|
  {
    var more := lines + [last];
    if |lines| == 1 {
      assert more[1..] == [last];
    } else {
      assert more[1..] == lines[1..] + [last];
      JoinedSnoc(lines[1..], last);
    }
  }

  lemma {:induction false} TrimmedIsKept(lines: seq<string>)
    requires AllInOneLine(lines)
    ensures TrimNewlines(Joined(lines)) == Joined(lines[..Kept(lines)])
    decreases |lines|
  {
    if lines != [] {
      var front, last := lines[..|lines| - 1], lines[|lines| - 1];
      assert lines == front + [last];
      if front != [] {
        JoinedSnoc(front, last);
      }
      var s := Joined(lines);
      if last != "" {
        assert s[|s| - 1] == last[|last| - 1] && last[|last| - 1] in last;
        assert lines[..|lines|] == lines;
      } else if front != [] {
        assert s == Joined(front) + "\n" && s[..|s| - 1] == Joined(front);
        TrimmedIsKept(front);
        assert lines[..Kept(lines)] == front[..Kept(front)];
      }
    }
  }

  // ---- Stamped lines ----

  function StampedLine(line: string, stamp: string): string {
    if line == "" then "" else stamp + line
  }

  /** Every line that is not empty behind the stamp, and CRLF behind every line. */
  function Stamped(lines: seq<string>, stamp: string): string {
    if lines == [] then "" else StampedLine(lines[0], stamp) + "\r\n" + Stamped(lines[1..], stamp)
  }

  lemma {:induction false} NewlineAfterLine(message: string, start: nat, line: string)
    requires InOneLine(line) && start + |line| <= |message| && message[start..start + |line|] == line
    requires start + |line| == |message| || message[start + |line|] == '\n'
    ensures FindNewline(message, start) == start + |line|
    decreases |line|
  {
    if line != "" {
      assert message[start] == line[0] && line[0] in line;
      assert message[start + 1..start + 1 + |line[1..]|] == line[1..];
      NewlineAfterLine(message, start + 1, line[1..]);
    }
  }

  /** Where the first of some joined lines stands in a text, and where the others go on. */
  lemma FirstOfJoined(message: string, start: nat, lines: seq<string>)
    requires start <= |message| && message[start..] == Joined(lines) && lines != []
    ensures var end := start + |lines[0]|;
            && end <= |message| && message[start..end] == lines[0]
            && (|lines| == 1 ==> end == |message|)
            && (|lines| > 1 ==> end < |message| && message[end] == '\n' && message[end + 1..] == Joined(lines[1..]))
  {
    var rest, end := message[start..], start + |lines[0]|;
    assert rest[..|lines[0]|] == lines[0];
    if |lines| > 1 {
      assert rest[|lines[0]|] == '\n' && rest[|lines[0]| + 1..] == Joined(lines[1..]);
      assert message[end + 1..] == rest[|lines[0]| + 1..];
    }
  }

  lemma RenderedOne(message: string, stamp: string, start: nat, line: string)
    requires start < |message| && FindNewline(message, start) == start + |line| && message[start..start + |line|] == line
    ensures Rendered(message, stamp, start) == StampedLine(line, stamp) + "\r\n" + Rendered(message, stamp, start + |line| + 1)
  {
  }

  /** The first line is written, and the others follow. */
  lemma FirstRendered(message: string, stamp: string, start: nat, lines: seq<string>)
    requires start < |message| && message[start..] == Joined(lines) && lines != [] && InOneLine(lines[0])
    ensures var next := start + |lines[0]| + 1;
            && Rendered(message, stamp, start) == StampedLine(lines[0], stamp) + "\r\n" + Rendered(message, stamp, next)
            && (|lines| == 1 ==> Rendered(message, stamp, next) == "")
            && (|lines| > 1 ==> next <= |message| && message[next..] == Joined(lines[1..]))
  {
    FirstOfJoined(message, start, lines);
    hide Joined, InOneLine, FindNewline;
    NewlineAfterLine(message, start, lines[0]);
    RenderedOne(message, stamp, start, lines[0]);
  }

  lemma StampedFirst(lines: seq<string>, stamp: string)
    requires lines != []
    ensures Stamped(lines, stamp) == StampedLine(lines[0], stamp) + "\r\n" + Stamped(lines[1..], stamp)
    ensures |lines| == 1 ==> Stamped(lines[1..], stamp) == ""
  {
  }

  lemma {:induction false} RenderedIsStamped(message: string, stamp: string, start: nat, lines: seq<string>)
    requires start <= |message| && message[start..] == Joined(lines) && lines != [] && lines[|lines| - 1] != ""
    requires AllInOneLine(lines)
    ensures Rendered(message, stamp, start) == Stamped(lines, stamp)
    decreases |lines|
  {
    hide *;
    NotEmpty(lines);
    assert start < |message|;
    FirstInOneLine(lines);
    FirstRendered(message, stamp, start, lines);
    StampedFirst(lines, stamp);
    if |lines| > 1 {
      RenderedIsStamped(message, stamp, start + |lines[0]| + 1, lines[1..]);
    }
  }

  lemma {:induction false} NotEmpty(lines: seq<string>)
    requires lines != [] && lines[|lines| - 1] != ""
    ensures Joined(lines) != ""
    decreases |lines|
  {
  }

  // ---- What is written ----

  ghost predicate IsStamp(stamp: string, time: Time) {
    exists hour, minute, second ::
      && IsNumber(hour, 2, time.hour) && IsNumber(minute, 2, time.minute) && IsNumber(second, 2, time.second)
      && stamp == "[" + hour + ":" + minute + ":" + second + "] "
  }

  ghost predicate IsHeading(heading: string, time: Time) {
    exists year, month, day ::
      && IsNumber(year, 4, time.year) && IsNumber(month, 2, time.month) && IsNumber(day, 2, time.day)
      && heading == "-- " + (year + "-" + month + "-" + day) + " --\r\n"
  }

  lemma {:induction false} PaddedIsNumber(n: nat, width: nat)
    ensures IsNumber(Padded(n, width), width, n)
    decreases n, width
  {
    if n > 0 || width > 0 {
      PaddedIsNumber(n / 10, if width > 0 then width - 1 else 0);
      if width == 0 && n < 10 {
        assert Padded(n / 10, 0) == "";
      }
      AppendDigit(Padded(n / 10, if width > 0 then width - 1 else 0), width, n);
    }
  }

  lemma TimestampIsStamp(time: Time)
    ensures IsStamp(Timestamp(time), time) && InOneLine(Timestamp(time))
  {
    PaddedIsNumber(time.hour, 2);
    PaddedIsNumber(time.minute, 2);
    PaddedIsNumber(time.second, 2);
    DigitsInOneLine(Padded(time.hour, 2));
    DigitsInOneLine(Padded(time.minute, 2));
    DigitsInOneLine(Padded(time.second, 2));
    hide Padded, IsNumber;
  }

  lemma DigitsInOneLine(s: string)
    requires AreDigits(s)
    ensures InOneLine(s)
  {
  }

  lemma HeaderIsHeading(time: Time)
    ensures IsHeading(Header(Date(time)), time)
  {
    PaddedIsNumber(time.year, 4);
    PaddedIsNumber(time.month, 2);
    PaddedIsNumber(time.day, 2);
    hide Padded, IsNumber;
  }

  /** Entries are added one after the other. */
  lemma EntriesInTurn(log: Log, entries: seq<Entry>, i: nat)
    requires i < |entries|
    ensures AppendAll(log, []) == log
    ensures AppendAll(log, entries[..i + 1]) == AppendEntry(AppendAll(log, entries[..i]), entries[i])
  {
    assert entries[..i + 1][..i] == entries[..i];
  }

  /** The heading is the last one that is in the log. */
  predicate LastHeading(log: Log, heading: string) {
    log.dates != [] && log.dates[|log.dates| - 1].header == heading
  }

  /**
   What an entry adds: nothing if all of its lines are empty; otherwise the heading of its day, unless
   that is the last one in the log, and then its lines up to the last that is not empty, each with the
   time in front unless it is empty.
   */
  lemma EntryIsWritten(log: Log, e: Entry, lines: seq<string>, breaks: seq<string>) returns (heading: string, stamp: string)
    requires Attributed(log) && MadeOf(e.text, lines, breaks)
    ensures IsHeading(heading, e.time) && IsStamp(stamp, e.time) && InOneLine(stamp)
    ensures Kept(lines) == 0 ==> AppendEntry(log, e) == log
    ensures Kept(lines) > 0 ==>
      AppendEntry(log, e).text == log.text + ((if LastHeading(log, heading) then "" else heading) + Stamped(lines[..Kept(lines)], stamp))
  {
    heading, stamp := Header(Date(e.time)), Timestamp(e.time);
    TimestampIsStamp(e.time);
    HeaderIsHeading(e.time);
    MadeOfLines(e.text, lines, breaks);
    assert AllInOneLine(lines[..Kept(lines)]);
    BreaksReplaced(e.text, lines, breaks);
    TrimmedIsKept(lines);
    var kept := lines[..Kept(lines)];
    assert Message(e) == Joined(kept);
    hide MadeOf, ReplaceBreaks, TrimNewlines, Message, IsHeading, IsStamp, Padded, Date, Timestamp, Header, Attributed, AppendEntry, Rendered;
    EntryText(log, e);
    if kept != [] {
      NotEmpty(kept);
      assert Message(e)[0..] == Joined(kept);
      RenderedIsStamped(Message(e), stamp, 0, kept);
      HeadingOnce(log, Date(e.time));
    }
  }

  lemma EntryText(log: Log, e: Entry)
    ensures Message(e) == "" ==> AppendEntry(log, e) == log
    ensures Message(e) != "" ==>
      AppendEntry(log, e).text ==
      log.text + ((if log.lastDate == Date(e.time) then "" else Header(Date(e.time))) + Rendered(Message(e), Timestamp(e.time), 0))
  {
    hide Message, Rendered, Date, Timestamp, Header;
    var body := Rendered(Message(e), Timestamp(e.time), 0);
    assert "" + body == body;
  }

  /** In a log that is in order the last date and the last heading are the same. */
  lemma HeadingOnce(log: Log, date: string)
    requires Attributed(log) && date != ""
    ensures log.lastDate == date <==> LastHeading(log, Header(date))
  {
    hide MarkersFit, Governing;
    if log.dates != [] && Header(log.lastDate) == Header(date) {
      var h := Header(date);
      assert h[3..|h| - 5] == date;
      assert Header(log.lastDate)[3..|h| - 5] == log.lastDate;
    }
  }

  predicate OnlyBreaks(s: string) {
    forall c | c in s :: c in {'\r', '\n'}
  }

  lemma OnlyBreaksConcat(a: string, b: string)
    ensures OnlyBreaks(a + b) <==> OnlyBreaks(a) && OnlyBreaks(b)
  {
    if OnlyBreaks(a + b) {
      assert forall c :: c in a ==> c in a + b;
      assert forall c :: c in b ==> c in a + b;
    }
  }

  lemma LineOnlyBreaks(line: string)
    requires InOneLine(line)
    ensures OnlyBreaks(line) <==> line == ""
  {
    if line != "" {
      assert line[0] in line;
    }
  }

  /** An entry is written unless its text consists of line breaks. */
  lemma {:induction false} KeptUnlessBlank(s: string, lines: seq<string>, breaks: seq<string>)
    requires MadeOf(s, lines, breaks)
    ensures Kept(lines) == 0 <==> OnlyBreaks(s)
    decreases |lines|
  {
    LineOnlyBreaks(lines[0]);
    if breaks == [] {
      assert lines == [s];
      AllEmpty(lines);
    } else {
      var rest := s[|lines[0]| + |breaks[0]|..];
      KeptUnlessBlank(rest, lines[1..], breaks[1..]);
      assert s == (lines[0] + breaks[0]) + rest;
      assert OnlyBreaks(breaks[0]);
      OnlyBreaksConcat(lines[0] + breaks[0], rest);
      OnlyBreaksConcat(lines[0], breaks[0]);
      hide MadeOf, OnlyBreaks, InOneLine;
      AllEmptyCons(lines);
    }
  }

  lemma AllEmptyCons(lines: seq<string>)
    requires lines != []
    ensures Kept(lines) == 0 <==> lines[0] == "" && Kept(lines[1..]) == 0
  {
    AllEmpty(lines);
    AllEmpty(lines[1..]);
    assert lines == [lines[0]] + lines[1..];
    assert forall line :: line in lines <==> line == lines[0] || line in lines[1..];
    hide Kept;
  }

  lemma AllEmpty(lines: seq<string>)
    ensures Kept(lines) == 0 <==> forall line :: line in lines ==> line == ""
  {
    if Kept(lines) > 0 {
      assert lines[Kept(lines) - 1] in lines;
    }
  }

  function ShownLines(lines: seq<string>, stamp: string): seq<string> {
    if lines == [] then [""] else [StampedLine(lines[0], stamp)] + ShownLines(lines[1..], stamp)
  }

  function ShownBreaks(n: nat): seq<string> {
    if n == 0 then [] else ["\r\n"] + ShownBreaks(n - 1)
  }

  /** Cut at its line breaks, what was written shows the lines again, each with its stamp. */
  lemma {:induction false} StampedShows(lines: seq<string>, stamp: string)
    requires InOneLine(stamp) && AllInOneLine(lines)
    ensures MadeOf(Stamped(lines, stamp), ShownLines(lines, stamp), ShownBreaks(|lines|))
    ensures |ShownLines(lines, stamp)| == |lines| + 1 &&
      forall i :: 0 <= i < |lines| ==> ShownLines(lines, stamp)[i] == if lines[i] == "" then "" else stamp + lines[i]
    decreases |lines|
  {
    if lines != [] {
      var s, shown, breaks := Stamped(lines, stamp), ShownLines(lines, stamp), ShownBreaks(|lines|);
      FirstInOneLine(lines);
      StampedShows(lines[1..], stamp);
      assert shown[1..] == ShownLines(lines[1..], stamp) && breaks[1..] == ShownBreaks(|lines| - 1);
      var k := |shown[0]| + 2;
      assert s == (shown[0] + "\r\n") + Stamped(lines[1..], stamp);
      assert s[..k] == shown[0] + "\r\n" && s[k..] == Stamped(lines[1..], stamp);
    }
  }
}
