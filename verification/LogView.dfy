/** The log page: appending flushed entries, trimming to the size limits, clearing. */
module LogView {
  import opened Text
  import opened LogText

  const MAX_LOG_LINES := 10000
  const LOG_LINES_TO_KEEP := 8000
  const MAX_LOG_CHARS := 256 * 1024
  const LOG_CHARS_TO_KEEP := 192 * 1024

  // ---- Lines as the edit control lays them out, wrapped ones included ----

  /** The start of every line of a text of the given length. */
  ghost predicate IsLayout(starts: seq<nat>, length: nat) {
    && starts != [] && starts[0] == 0
    && (forall i, j :: 0 <= i < j < |starts| ==> starts[i] < starts[j])
    && (forall i :: 0 <= i < |starts| ==> starts[i] <= length)
  }

  function LineIndex(starts: seq<nat>, line: nat): int {
    if line < |starts| then starts[line] else -1
  }

  /** The line that holds a character: the last one starting at or before it. */
  function LineFromChar(starts: seq<nat>, c: nat): nat {
    if |starts| <= 1 || starts[|starts| - 1] <= c then if starts == [] then 0 else |starts| - 1
    else LineFromChar(starts[..|starts| - 1], c)
  }

  /** The first character to keep, 0 when nothing is to be cut. */
  function CutPoint(starts: seq<nat>, chars: nat): int
    requires starts != []
  {
    var byLines := if |starts| > MAX_LOG_LINES then LineIndex(starts, |starts| - LOG_LINES_TO_KEEP + 1) else 0;
    if chars > MAX_LOG_CHARS then
      var cut := chars - LOG_CHARS_TO_KEEP;
      var nextLine := LineIndex(starts, LineFromChar(starts, cut) + 1);
      var byChars := if nextLine >= 0 then nextLine else cut;
      if byLines > byChars then byLines else byChars
    else byLines
  }

  lemma {:induction false} LineFromCharIs(starts: seq<nat>, c: nat)
    requires starts != [] && starts[0] == 0 && forall i, j :: 0 <= i < j < |starts| ==> starts[i] < starts[j]
    ensures var line := LineFromChar(starts, c);
            line < |starts| && starts[line] <= c && (line + 1 < |starts| ==> starts[line + 1] > c)
    decreases |starts|
  {
    if |starts| > 1 && starts[|starts| - 1] > c {
      LineFromCharIs(starts[..|starts| - 1], c);
    }
  }

  /** The cut is where the lines to keep start, or at the first line start, if there is one, that leaves no more characters than are to be kept. */
  ghost predicate NoMoreThanNeeded(starts: seq<nat>, chars: nat, cut: int) {
    || (|starts| > MAX_LOG_LINES && cut == starts[|starts| - LOG_LINES_TO_KEEP + 1])
    || (chars > MAX_LOG_CHARS && cut >= chars - LOG_CHARS_TO_KEEP &&
        (cut in starts || cut == chars - LOG_CHARS_TO_KEEP) &&
        forall i :: 0 <= i < |starts| && starts[i] > chars - LOG_CHARS_TO_KEEP ==> cut <= starts[i])
  }

  /** What the cut leaves: few enough lines, and few enough characters, when it cuts for them. */
  lemma CutPointBounds(starts: seq<nat>, chars: nat)
    requires IsLayout(starts, chars)
    ensures 0 <= CutPoint(starts, chars) <= chars
    ensures chars > MAX_LOG_CHARS ==> chars - CutPoint(starts, chars) <= LOG_CHARS_TO_KEEP
    ensures |starts| > MAX_LOG_LINES ==> CutPoint(starts, chars) >= starts[|starts| - LOG_LINES_TO_KEEP + 1]
    ensures CutPoint(starts, chars) == 0 <==> |starts| <= MAX_LOG_LINES && chars <= MAX_LOG_CHARS
    ensures CutPoint(starts, chars) > 0 ==> NoMoreThanNeeded(starts, chars, CutPoint(starts, chars))
  {
    if chars > MAX_LOG_CHARS {
      LineFromCharIs(starts, chars - LOG_CHARS_TO_KEEP);
    }
  }

  ghost predicate LaysOut(layout: string -> seq<nat>) {
    forall t: string {:trigger layout(t)} :: IsLayout(layout(t), |t|)
  }

  /** The log after one flush: the entries appended, then the front cut off if it has grown too long. */
  function Flushed(log: Log, entries: seq<Entry>, layout: string -> seq<nat>): Log
    requires Attributed(log) && LaysOut(layout)
  {
    AppendAllAttributes(log, entries);
    var longer := AppendAll(log, entries);
    var cut := CutPoint(layout(longer.text), |longer.text|);
    if 0 < cut <= |longer.text| then Trim(longer, cut) else longer
  }

  /**
   A flush cuts exactly when one of the two limits is exceeded. Then fewer than the lines to keep are
   left of the old layout, and not more characters than are to be kept, not counting the heading that is
   written again.
   */
  lemma FlushBounds(log: Log, entries: seq<Entry>, layout: string -> seq<nat>)
    requires Attributed(log) && LaysOut(layout)
    ensures Attributed(AppendAll(log, entries))
    ensures var longer, now := AppendAll(log, entries), Flushed(log, entries, layout);
            var starts, chars := layout(longer.text), |longer.text|;
            var cut := CutPoint(starts, chars);
            && (|starts| <= MAX_LOG_LINES && chars <= MAX_LOG_CHARS ==> now == longer)
            && (|starts| > MAX_LOG_LINES || chars > MAX_LOG_CHARS ==>
                  0 < cut <= chars && now == Trim(longer, cut) && |now.text| == chars - cut + |Rewritten(longer.dates, cut)|)
            && (|starts| > MAX_LOG_LINES ==>
                  forall i :: 0 <= i < |starts| && starts[i] >= cut ==> i > |starts| - LOG_LINES_TO_KEEP)
            && (chars > MAX_LOG_CHARS ==> |now.text| <= LOG_CHARS_TO_KEEP + |Rewritten(longer.dates, cut)|)
            && (cut > 0 ==> NoMoreThanNeeded(starts, chars, cut))
  {
    AppendAllAttributes(log, entries);
    var longer := AppendAll(log, entries);
    hide Attributed, AppendAll, Rewritten, Later, Moved, WithHeading;
    assert IsLayout(layout(longer.text), |longer.text|);
    CutPointBounds(layout(longer.text), |longer.text|);
  }

  lemma RenderedStep(message: string, stamp: string, start: nat, end: nat, line: string)
    requires start < |message| && end == FindNewline(message, start)
    requires line == (if end > start then stamp + message[start..end] else "") + "\r\n"
    ensures Rendered(message, stamp, start) == line + Rendered(message, stamp, end + 1)
  {
  }

  class LogPage {
    var text: string
    var dates: seq<Marker>
    var lastDate: string
    ghost var under: seq<string>     // for each character the heading it was written under

    ghost function Value(): Log
      reads this
    {
      Log(text, dates, lastDate, under)
    }

    ghost predicate Valid()
      reads this
    {
      Attributed(Value())
    }

    constructor ()
      ensures Valid() && Value() == EMPTY_LOG
    {
      text, dates, lastDate, under := "", [], "", [];
    }

    method RenderLines(message: string, stamp: string) returns (lines: string)
      ensures lines == Rendered(message, stamp, 0)
    {
      lines := "";
      var start := 0;
      while start < |message|
        invariant lines + Rendered(message, stamp, start) == Rendered(message, stamp, 0)
        decreases |message| - start
      {
        var end := FindNewline(message, start);
        var line := "";
        if end > start { line := stamp + message[start..end]; }
        line := line + "\r\n";
        RenderedStep(message, stamp, start, end, line);
        Regroup(lines, line, Rendered(message, stamp, end + 1));
        hide Rendered;
        lines := lines + line;
        start := end + 1;
      }
    }

    /** Appends one entry to `output`, which is to follow the present text. */
    method AppendLogEntry(entry: Entry, output: string, baseOffset: nat) returns (longer: string)
      requires baseOffset == |text|
      modifies this
      ensures text == old(text)
      ensures Log(text + longer, dates, lastDate, under)
              == AppendEntry(old(Log(text + output, dates, lastDate, under)), entry)
    {
      hide Rendered, Message, Header, Date, Timestamp;
      longer := output;
      var message := Message(entry);
      if message == "" { return; }
      var date := Date(entry.time);
      ghost var added := "";
      if date != lastDate {
        dates := dates + [Marker(baseOffset + |longer|, Header(date))];
        longer := longer + Header(date);
        added := Header(date);
        lastDate := date;
      }
      var lines := RenderLines(message, Timestamp(entry.time));
      longer := longer + lines;
      added := added + lines;
      under := under + Repeated(Header(date), |added|);
      assert date == old(lastDate) ==> added == lines;
      assert longer == output + added;
      assert text + (output + added) == text + output + added;
    }

    /** `warning` stands for the entries that were dropped before the batch, if any. */
    method FlushLogText(warning: seq<Entry>, batch: seq<Entry>, layout: string -> seq<nat>) returns (removed: int)
      requires Valid() && |warning| <= 1
      requires LaysOut(layout)
      modifies this
      ensures Valid()
      ensures Value() == Flushed(old(Value()), warning + batch, layout)
      ensures |text| == |AppendAll(old(Value()), warning + batch).text| - removed
    {
      hide AppendEntry, Attributed, Trim, CutPoint, IsLayout;
      ghost var before := Value();
      var output := "";
      assert text + output == text;
      var baseOffset := |text|;
      if warning != [] {
        output := AppendLogEntry(warning[0], output, baseOffset);
        assert warning[..0] == [] && warning == [warning[0]];
      }
      assert batch[..0] == [] && warning + [] == warning;
      for i := 0 to |batch|
        invariant text == before.text
        invariant Log(text + output, dates, lastDate, under) == AppendAll(before, warning + batch[..i])
      {
        output := AppendLogEntry(batch[i], output, baseOffset);
        ghost var all := warning + batch[..i + 1];
        assert all[..|all| - 1] == warning + batch[..i] && all[|all| - 1] == batch[i];
      }
      assert batch[..|batch|] == batch;
      text := text + output;
      AppendAllAttributes(before, warning + batch);
      hide NoMoreThanNeeded;
      CutPointBounds(layout(text), |text|);
      removed := TrimLogLines(layout(text));
    }

    /** Cuts the front of the text; returns by how much every remaining character has moved. */
    method TrimLogLines(starts: seq<nat>) returns (removed: int)
      requires Valid() && IsLayout(starts, |text|)
      modifies this
      ensures Valid()
      ensures var cut := CutPoint(starts, |old(text)|);
              Value() == if cut > 0 then Trim(old(Value()), cut) else old(Value())
      ensures |text| == |old(text)| - removed
    {
      ghost var before := Value();
      hide NoMoreThanNeeded;
      CutPointBounds(starts, |text|);
      var lineCount := |starts|;
      var chars := |text|;
      if lineCount <= MAX_LOG_LINES && chars <= MAX_LOG_CHARS { return 0; }
      var firstCharToKeep := 0;
      if lineCount > MAX_LOG_LINES {
        firstCharToKeep := LineIndex(starts, lineCount - LOG_LINES_TO_KEEP + 1);
      }
      if chars > MAX_LOG_CHARS {
        var cut := chars - LOG_CHARS_TO_KEEP;
        var nextLine := LineIndex(starts, LineFromChar(starts, cut) + 1);
        var byChars := if nextLine >= 0 then nextLine else cut;
        if byChars > firstCharToKeep { firstCharToKeep := byChars; }
      }
      if firstCharToKeep <= 0 { return 0; }
      assert firstCharToKeep == CutPoint(starts, |text|);
      removed := CutFront(firstCharToKeep);
    }

    method DropDates(cut: nat)
      modifies this`dates
      ensures dates == DropBefore(old(dates), cut)
    {
      while |dates| > 1 && dates[1].offset <= cut
        invariant DropBefore(dates, cut) == DropBefore(old(dates), cut)
        decreases |dates|
      {
        dates := dates[1..];
      }
    }

    method CutFront(cut: nat) returns (removed: int)
      requires Valid() && cut <= |text|
      modifies this
      ensures Valid() && Value() == Trim(old(Value()), cut)
      ensures |text| == |old(text)| - removed
    {
      ghost var before := Value();
      TrimAttributes(before, cut);
      TrimShape(before, cut);
      hide Attributed, DropBefore, Moved, Repeated;
      DropDates(cut);
      var kept := dates;
      var header := "";
      if kept != [] && kept[0].offset < cut {
        header := kept[0].header;
        kept := kept[1..];
      }
      kept := Moved(kept, |header|, cut);
      if header != "" { kept := [Marker(0, header)] + kept; }
      dates := kept;
      under := Repeated(header, |header|) + under[cut..];
      text := header + text[cut..];
      removed := cut - |header|;
    }

    method ClearAll()
      modifies this
      ensures Valid() && Value() == EMPTY_LOG
    {
      text, lastDate, dates, under := "", "", [], [];
    }
  }

  // ---- Any run of appends, trims and clears ----

  datatype Edit = Append(entries: seq<Entry>) | Cut(at: nat) | Clear

  function ApplyEdit(log: Log, edit: Edit): (next: Log)
    requires Attributed(log)
    ensures Attributed(next)
  {
    match edit
    case Append(entries) => AppendAllAttributes(log, entries); AppendAll(log, entries)
    case Cut(at) => if at > |log.text| then log else TrimAttributes(log, at); Trim(log, at)
    case Clear => EMPTY_LOG
  }

  function ApplyEdits(log: Log, edits: seq<Edit>): (last: Log)
    requires Attributed(log)
    ensures Attributed(last)
    decreases |edits|
  {
    if edits == [] then log else ApplyEdits(ApplyEdit(log, edits[0]), edits[1..])
  }

  /**
   Where a character that survives a cut ends up: it is the same character, under the heading it was
   written under, and that heading still is the one that governs it.
   */
  lemma CutKeepsCharacters(log: Log, at: nat, p: nat)
    requires Attributed(log) && at <= p < |log.text|
    ensures var next := Trim(log, at);
            var q := p - at + |Rewritten(log.dates, at)|;
            && q < |next.text| && next.text[q] == log.text[p] && next.under[q] == log.under[p]
            && Governing(next.dates, q) == Governing(log.dates, p)
  {
    TrimAttributes(log, at);
  }

  /** Starting from an empty page, every character stays attributed to its heading through any edits. */
  lemma EditsAttribute(edits: seq<Edit>, p: nat)
    requires p < |ApplyEdits(EMPTY_LOG, edits).text|
    ensures var log := ApplyEdits(EMPTY_LOG, edits);
            && log.under[p] == Governing(log.dates, p) && log.lastDate != ""
            && log.dates[|log.dates| - 1].header == Header(log.lastDate)
  {
  }
}
