/**
 The text of the log page.  A date heading is written whenever the date changes; when old text is cut
 off at the front, the heading that governs the first remaining character is written again.
 */
module LogText {

  datatype Time = Time(year: nat, month: nat, day: nat, hour: nat, minute: nat, second: nat)
  datatype Entry = Entry(text: string, time: Time)

  /** A heading and where it starts. */
  datatype Marker = Marker(offset: nat, header: string)

  /** The text, its markers, and for each character the heading it was written under. */
  datatype Log = Log(text: string, dates: seq<Marker>, lastDate: string, under: seq<string>)

  const EMPTY_LOG := Log("", [], "", [])

  // ---- What an entry looks like ----

  function Padded(n: nat, width: nat): (s: string)
    ensures s != "" || width == 0
    decreases n, width
  {
    if n == 0 && width == 0 then ""
    else Padded(n / 10, if width > 0 then width - 1 else 0) + [(n % 10) as char + '0']
  }

  function Date(t: Time): (s: string)
    ensures s != ""
  {
    Padded(t.year, 4) + "-" + Padded(t.month, 2) + "-" + Padded(t.day, 2)
  }

  function Timestamp(t: Time): string {
    "[" + Padded(t.hour, 2) + ":" + Padded(t.minute, 2) + ":" + Padded(t.second, 2) + "] "
  }

  function Header(date: string): string {
    "-- " + date + " --\r\n"
  }

  function ReplaceBreaks(s: string): string
    decreases |s|
  {
    if s == "" then ""
    else if s[0] == '\r' && |s| > 1 && s[1] == '\n' then "\n" + ReplaceBreaks(s[2..])
    else [if s[0] == '\r' then '\n' else s[0]] + ReplaceBreaks(s[1..])
  }

  function TrimNewlines(s: string): string
    decreases |s|
  {
    if s != "" && s[|s| - 1] == '\n' then TrimNewlines(s[..|s| - 1]) else s
  }

  function Message(e: Entry): string {
    TrimNewlines(ReplaceBreaks(e.text))
  }

  function FindNewline(s: string, start: nat): (end: nat)
    requires start <= |s|
    ensures start <= end <= |s|
    decreases |s| - start
  {
    if start == |s| || s[start] == '\n' then start else FindNewline(s, start + 1)
  }

  /** Each line under its own timestamp; empty lines stay empty. */
  function Rendered(message: string, stamp: string, start: nat): string
    decreases |message| - start
  {
    if start >= |message| then ""
    else
      var end := FindNewline(message, start);
      (if end > start then stamp + message[start..end] else "") + "\r\n" + Rendered(message, stamp, end + 1)
  }

  function Repeated(header: string, n: nat): (s: seq<string>)
    ensures |s| == n && forall i :: 0 <= i < n ==> s[i] == header
  {
    seq(n, _ => header)
  }

  function AppendEntry(log: Log, e: Entry): Log {
    var message := Message(e);
    if message == "" then log
    else
      var date := Date(e.time);
      var body := Rendered(message, Timestamp(e.time), 0);
      if date == log.lastDate then
        log.(text := log.text + body, under := log.under + Repeated(Header(date), |body|))
      else
        var added := Header(date) + body;
        Log(log.text + added, log.dates + [Marker(|log.text|, Header(date))], date,
            log.under + Repeated(Header(date), |added|))
  }

  function AppendAll(log: Log, entries: seq<Entry>): Log {
    if entries == [] then log else AppendEntry(AppendAll(log, entries[..|entries| - 1]), entries[|entries| - 1])
  }

  // ---- Which heading governs a character ----

  /** The heading of the last marker at or before position p. */
  function Governing(dates: seq<Marker>, p: nat): string {
    if dates == [] then ""
    else if dates[|dates| - 1].offset <= p then dates[|dates| - 1].header
    else Governing(dates[..|dates| - 1], p)
  }

  /** Where marker i must have ended: the next marker, or the end of the text. */
  function EndOf(dates: seq<Marker>, i: nat, length: nat): nat
    requires i < |dates|
  {
    if i + 1 < |dates| then dates[i + 1].offset else length
  }

  /** Marker i points at its own heading in the text, and the next marker comes after it. */
  ghost predicate MarkerFits(text: string, dates: seq<Marker>, i: nat)
    requires i < |dates|
  {
    var m := dates[i];
    && m.header != ""
    && m.offset + |m.header| <= EndOf(dates, i, |text|) <= |text|
    && text[m.offset..m.offset + |m.header|] == m.header
  }

  /** Markers start at 0, follow each other, and each points at its own heading in the text. */
  ghost predicate MarkersFit(text: string, dates: seq<Marker>) {
    && (dates != [] ==> dates[0].offset == 0)
    && forall i: nat :: i < |dates| ==> MarkerFits(text, dates, i)
  }

  /** Every character still is under the heading it was written under. */
  ghost predicate Attributed(log: Log) {
    && (log.dates == [] ==> log.text == "" && log.lastDate == "")
    && (log.dates != [] ==> log.lastDate != "" && log.dates[|log.dates| - 1].header == Header(log.lastDate))
    && MarkersFit(log.text, log.dates)
    && |log.under| == |log.text|
    && (forall p: nat :: p < |log.text| ==> log.under[p] == Governing(log.dates, p))
  }

  lemma {:induction false} OffsetsIncrease(text: string, dates: seq<Marker>, i: nat, j: nat)
    requires MarkersFit(text, dates) && i < j < |dates|
    ensures dates[i].offset + |dates[i].header| <= dates[j].offset
    decreases j - i
  {
    assert MarkerFits(text, dates, i);
    if i + 1 < j {
      OffsetsIncrease(text, dates, i + 1, j);
    }
  }

  lemma MarkerStays(text: string, more: string, dates: seq<Marker>, later: seq<Marker>, i: nat)
    requires i < |dates| && MarkerFits(text, dates, i)
    requires later == [] || later[0].offset == |text|
    ensures MarkerFits(text + more, dates + later, i)
  {
    var m := dates[i];
    assert (text + more)[m.offset..m.offset + |m.header|] == text[m.offset..m.offset + |m.header|];
  }

  /** More text under the last heading. */
  lemma GrowText(text: string, more: string, dates: seq<Marker>, p: nat)
    requires MarkersFit(text, dates) && dates != [] && p < |text + more|
    ensures MarkersFit(text + more, dates)
    ensures p >= |text| ==> Governing(dates, p) == dates[|dates| - 1].header
  {
    assert dates + [] == dates;
    forall i: nat | i < |dates| ensures MarkerFits(text + more, dates, i) {
      MarkerStays(text, more, dates, [], i);
    }
    assert MarkerFits(text, dates, |dates| - 1);
  }

  /** More text under a heading of its own. */
  lemma GrowMarked(text: string, header: string, body: string, dates: seq<Marker>, p: nat)
    requires MarkersFit(text, dates) && header != "" && (dates == [] ==> text == "")
    requires p < |text + (header + body)|
    ensures var all := dates + [Marker(|text|, header)];
            && MarkersFit(text + (header + body), all)
            && Governing(all, p) == if p >= |text| then header else Governing(dates, p)
  {
    var last := Marker(|text|, header);
    var all := dates + [last];
    forall i: nat | i < |all| ensures MarkerFits(text + (header + body), all, i) {
      if i < |dates| {
        MarkerStays(text, header + body, dates, [last], i);
      } else {
        assert (text + (header + body))[|text|..|text| + |header|] == header;
      }
    }
    assert all[..|all| - 1] == dates;
  }

  lemma HeaderNonEmpty(date: string)
    ensures Header(date) != ""
  {
  }

  /** Appending an entry keeps every character under its heading. */
  lemma AppendEntryAttributes(log: Log, e: Entry)
    requires Attributed(log)
    ensures Attributed(AppendEntry(log, e))
  {
    hide Rendered, Message, Header, Date, Timestamp, MarkersFit, Governing;
    var next := AppendEntry(log, e);
    var body := Rendered(Message(e), Timestamp(e.time), 0);
    var header := Header(Date(e.time));
    HeaderNonEmpty(Date(e.time));
    if Message(e) == "" {
    } else if Date(e.time) == log.lastDate {
      assert log.dates != [];
      forall p: nat | p < |next.text|
        ensures next.under[p] == Governing(next.dates, p)
      {
        GrowText(log.text, body, log.dates, p);
      }
      if body == "" {
        assert log.text + body == log.text;
      } else {
        GrowText(log.text, body, log.dates, 0);
      }
    } else {
      forall p: nat | p < |next.text|
        ensures next.under[p] == Governing(next.dates, p)
      {
        GrowMarked(log.text, header, body, log.dates, p);
      }
      GrowMarked(log.text, header, body, log.dates, |log.text|);
    }
  }

  lemma {:induction false} AppendAllAttributes(log: Log, entries: seq<Entry>)
    requires Attributed(log)
    ensures Attributed(AppendAll(log, entries))
    decreases |entries|
  {
    if entries != [] {
      AppendAllAttributes(log, entries[..|entries| - 1]);
      AppendEntryAttributes(AppendAll(log, entries[..|entries| - 1]), entries[|entries| - 1]);
    }
  }

  // ---- Trimming ----

  /** The markers after position `cut`, once those before it are gone. */
  function DropBefore(dates: seq<Marker>, cut: nat): seq<Marker>
    decreases |dates|
  {
    if |dates| > 1 && dates[1].offset <= cut then DropBefore(dates[1..], cut) else dates
  }

  function Moved(dates: seq<Marker>, shift: nat, cut: nat): (moved: seq<Marker>)
    requires forall i :: 0 <= i < |dates| ==> dates[i].offset >= cut
    ensures |moved| == |dates|
  {
    seq(|dates|, i requires 0 <= i < |dates| => Marker(dates[i].offset + shift - cut, dates[i].header))
  }

  /** Whether the heading in force at the cut lies before it. */
  predicate CutsHeading(kept: seq<Marker>, cut: nat) {
    kept != [] && kept[0].offset < cut
  }

  /** The heading that is written again, if any. */
  function Rewritten(dates: seq<Marker>, cut: nat): string {
    var kept := DropBefore(dates, cut);
    if CutsHeading(kept, cut) then kept[0].header else ""
  }

  /** The markers at or after the cut. */
  function Later(dates: seq<Marker>, cut: nat): seq<Marker> {
    var kept := DropBefore(dates, cut);
    if CutsHeading(kept, cut) then kept[1..] else kept
  }

  function WithHeading(header: string, dates: seq<Marker>): seq<Marker> {
    if header != "" then [Marker(0, header)] + dates else dates
  }

  /** The log without its first `cut` characters; the heading in force there is written again. */
  function Trim(log: Log, cut: nat): Log
    requires Attributed(log) && cut <= |log.text|
  {
    TrimShape(log, cut);
    var h := Rewritten(log.dates, cut);
    Log(h + log.text[cut..], WithHeading(h, Moved(Later(log.dates, cut), |h|, cut)), log.lastDate,
        Repeated(h, |h|) + log.under[cut..])
  }

  lemma TrimShape(log: Log, cut: nat)
    requires Attributed(log) && cut <= |log.text|
    ensures forall i :: 0 <= i < |Later(log.dates, cut)| ==> Later(log.dates, cut)[i].offset >= cut
    ensures CutsHeading(DropBefore(log.dates, cut), cut) <==> Rewritten(log.dates, cut) != ""
  {
    if log.dates != [] {
      var d := KeptStartsBefore(log, cut);
      assert MarkerFits(log.text, log.dates, d);
    }
  }

  /** The dropped markers are a prefix; the first one kept is the last one at or before the cut. */
  lemma {:induction false} DropPoint(text: string, dates: seq<Marker>, cut: nat) returns (d: nat)
    ensures d <= |dates| && DropBefore(dates, cut) == dates[d..]
    ensures dates != [] ==> d < |dates| && (d > 0 ==> dates[d].offset <= cut) && (d + 1 < |dates| ==> dates[d + 1].offset > cut)
    decreases |dates|
  {
    d := 0;
    if |dates| > 1 && dates[1].offset <= cut {
      d := DropPoint(text, dates[1..], cut);
      d := d + 1;
    }
  }

  lemma KeptStartsBefore(log: Log, cut: nat) returns (d: nat)
    requires Attributed(log) && cut <= |log.text| && log.dates != []
    ensures d < |log.dates| && DropBefore(log.dates, cut) == log.dates[d..]
    ensures log.dates[d].offset <= cut
    ensures forall i :: d < i < |log.dates| ==> log.dates[i].offset > cut
  {
    d := DropPoint(log.text, log.dates, cut);
    forall i | d < i < |log.dates| ensures log.dates[i].offset > cut {
      if i > d + 1 {
        OffsetsIncrease(log.text, log.dates, d + 1, i);
      }
    }
  }

  /** Markers in front of one at or before p do not matter at p. */
  lemma {:induction false} GoverningSuffix(dates: seq<Marker>, d: nat, p: nat)
    requires d < |dates| && dates[d].offset <= p
    ensures Governing(dates, p) == Governing(dates[d..], p)
    decreases |dates|
  {
    var n := |dates| - 1;
    if dates[n].offset > p {
      assert dates[d..][..|dates[d..]| - 1] == dates[..n][d..];
      GoverningSuffix(dates[..n], d, p);
    }
  }

  /** The same headings at positions on the same side of p and of q. */
  ghost predicate Alike(a: seq<Marker>, b: seq<Marker>, p: nat, q: nat) {
    |a| == |b| &&
    forall i :: 0 <= i < |a| ==> a[i].header == b[i].header && (a[i].offset <= p <==> b[i].offset <= q)
  }

  lemma {:induction false} GoverningAlike(a: seq<Marker>, b: seq<Marker>, p: nat, q: nat)
    requires Alike(a, b, p, q)
    ensures Governing(a, p) == Governing(b, q)
    decreases |a|
  {
    if a != [] {
      GoverningAlike(a[..|a| - 1], b[..|b| - 1], p, q);
    }
  }

  /** The markers after trimming, whether or not a heading is written again. */
  function TrimmedDates(kept: seq<Marker>, header: string, cut: nat): seq<Marker>
    requires kept != [] && forall i :: 0 < i < |kept| ==> kept[i].offset >= cut
  {
    [Marker(0, kept[0].header)] + Moved(kept[1..], |header|, cut)
  }

  lemma TextShift(text: string, header: string, cut: nat, at: nat, length: nat)
    requires cut <= at && at + length <= |text|
    ensures (header + text[cut..])[at + |header| - cut..at + |header| - cut + length] == text[at..at + length]
  {
  }

  lemma TrimmedMarkersFit(text: string, dates: seq<Marker>, d: nat, header: string, cut: nat)
    requires MarkersFit(text, dates) && d < |dates| && cut <= |text|
    requires dates[d].offset <= cut && forall i :: d < i < |dates| ==> dates[i].offset > cut
    requires header == if dates[d].offset < cut then dates[d].header else ""
    ensures MarkersFit(header + text[cut..], TrimmedDates(dates[d..], header, cut))
  {
    var trimmed := header + text[cut..];
    var moved := TrimmedDates(dates[d..], header, cut);
    forall i: nat | i < |moved| ensures MarkerFits(trimmed, moved, i) {
      var m := dates[d + i];
      assert MarkerFits(text, dates, d + i);
      if i == 0 && header != "" {
        assert trimmed[0..|header|] == header;
      } else {
        var at := m.offset + |header| - cut;
        assert moved[i].offset == at && moved[i].header == m.header;
        TextShift(text, header, cut, m.offset, |m.header|);
      }
      assert i + 1 < |moved| ==> moved[i + 1].offset == dates[d + i + 1].offset + |header| - cut;
    }
  }

  lemma TrimmedAlike(kept: seq<Marker>, header: string, cut: nat, p: nat, q: nat)
    requires kept != [] && kept[0].offset <= cut <= q && forall i :: 0 < i < |kept| ==> kept[i].offset > cut
    requires (p >= |header| && q == p - |header| + cut) || (p < |header| && q == cut)
    ensures Alike(TrimmedDates(kept, header, cut), kept, p, q)
  {
    var moved := TrimmedDates(kept, header, cut);
    forall i | 0 <= i < |moved|
      ensures moved[i].header == kept[i].header && (moved[i].offset <= p <==> kept[i].offset <= q)
    {
      if i > 0 {
        assert moved[i].offset == kept[i].offset + |header| - cut;
      }
    }
  }

  lemma TrimmedGoverning(dates: seq<Marker>, d: nat, header: string, cut: nat, p: nat)
    requires d < |dates| && dates[d].offset <= cut && forall i :: d < i < |dates| ==> dates[i].offset > cut
    requires header == if dates[d].offset < cut then dates[d].header else ""
    ensures p < |header| ==> Governing(TrimmedDates(dates[d..], header, cut), p) == header
    ensures p >= |header| ==> Governing(TrimmedDates(dates[d..], header, cut), p) == Governing(dates, p - |header| + cut)
  {
    hide Governing, Alike;
    var kept := dates[d..];
    var q := if p >= |header| then p - |header| + cut else cut;
    TrimmedAlike(kept, header, cut, p, q);
    GoverningAlike(TrimmedDates(kept, header, cut), kept, p, q);
    GoverningSuffix(dates, d, q);
    if p < |header| {
      GoverningAt(dates, d, cut);
    }
  }

  lemma {:induction false} GoverningAt(dates: seq<Marker>, d: nat, p: nat)
    requires d < |dates| && dates[d].offset <= p && forall i :: d < i < |dates| ==> dates[i].offset > p
    ensures Governing(dates, p) == dates[d].header
    decreases |dates|
  {
    if d < |dates| - 1 {
      GoverningAt(dates[..|dates| - 1], d, p);
    }
  }

  lemma TrimmedDatesAre(log: Log, cut: nat, d: nat)
    requires Attributed(log) && cut <= |log.text| && d < |log.dates|
    requires DropBefore(log.dates, cut) == log.dates[d..] && log.dates[d].offset <= cut
    requires forall i :: d < i < |log.dates| ==> log.dates[i].offset > cut
    ensures var h := Rewritten(log.dates, cut);
            && h == (if log.dates[d].offset < cut then log.dates[d].header else "")
            && Trim(log, cut).dates == TrimmedDates(log.dates[d..], h, cut)
  {
    assert MarkerFits(log.text, log.dates, d);
    TrimShape(log, cut);
    hide DropBefore, Repeated, MarkersFit, Governing;
    var h := Rewritten(log.dates, cut);
    var a, b := Trim(log, cut).dates, TrimmedDates(log.dates[d..], h, cut);
    assert |a| == |b|;
    forall i | 0 <= i < |a| ensures a[i] == b[i] {
    }
  }

  lemma TrimmedUnder(log: Log, cut: nat, d: nat, h: string, dates: seq<Marker>, p: nat)
    requires Attributed(log) && cut <= |log.text| && d < |log.dates|
    requires log.dates[d].offset <= cut && forall i :: d < i < |log.dates| ==> log.dates[i].offset > cut
    requires h == if log.dates[d].offset < cut then log.dates[d].header else ""
    requires dates == TrimmedDates(log.dates[d..], h, cut)
    requires p < |h| + |log.text| - cut
    ensures (Repeated(h, |h|) + log.under[cut..])[p] == Governing(dates, p)
  {
    hide Governing, MarkersFit, TrimmedDates;
    TrimmedGoverning(log.dates, d, h, cut, p);
    if p >= |h| {
      assert log.under[cut..][p - |h|] == log.under[p - |h| + cut];
    }
  }

  /** Trimming keeps every remaining character under the heading it was written under. */
  lemma TrimAttributes(log: Log, cut: nat)
    requires Attributed(log) && cut <= |log.text|
    ensures Attributed(Trim(log, cut))
  {
    var next := Trim(log, cut);
    if log.dates != [] {
      var d := KeptStartsBefore(log, cut);
      var h := Rewritten(log.dates, cut);
      TrimmedDatesAre(log, cut, d);
      TrimmedMarkersFit(log.text, log.dates, d, h, cut);
      forall p: nat | p < |next.text| ensures next.under[p] == Governing(next.dates, p) {
        TrimmedUnder(log, cut, d, h, next.dates, p);
      }
      hide MarkersFit, Governing, Rewritten, DropBefore, Later, WithHeading, Repeated;
      assert next.dates[|next.dates| - 1].header == log.dates[|log.dates| - 1].header;
    }
  }
}
