/** The rows of the process list: what they show, how far an update has come, and their order. */
module ProcessRows {
  import opened Text
  import opened Sorting
  import opened ProcessForest
  import opened ProcessOrder
  import opened ProcessTree
  import opened ProcessSiblings

  /** The texts of name, start time and path. */
  type Columns = columns: seq<string> | |columns| == 3 witness ["", "", ""]

  /** The mirror's record of a row. */
  datatype DisplayedProcess = DisplayedProcess(pid: Pid, startTime: nat, columns: Columns)

  /** A row of the native list: its text, the number attached to it and the other columns. */
  datatype ListRow = ListRow(text: string, data: Pid, columns: Columns)

  function Decimal(n: nat): string {
    (if n < 10 then "" else Decimal(n / 10)) + [(n % 10) as char + '0']
  }

  /** The digits of the number, and no zero in front of them. */
  lemma {:induction false} DecimalIsNumber(n: nat)
    ensures IsNumber(Decimal(n), 1, n)
    decreases n
  {
    if n >= 10 {
      DecimalIsNumber(n / 10);
      var front := Decimal(n / 10);
      assert |front| == 1 ==> front[..0] == "";
      AppendDigit(front, 1, n);
    } else {
      AppendDigit("", 1, n);
    }
  }

  function Show(row: DisplayedProcess): ListRow {
    ListRow(Decimal(row.pid), row.pid, row.columns)
  }

  ghost predicate Mirrors(list: seq<ListRow>, displayed: seq<DisplayedProcess>) {
    |list| == |displayed| && forall i :: 0 <= i < |list| ==> list[i] == Show(displayed[i])
  }

  function ProcessDisplayName(prefixes: Prefixes, state: SortState, info: ProcessInfo): string {
    (if state == Unsorted && info.pid in prefixes then prefixes[info.pid] else "") + info.name
  }

  function RowOf(prefixes: Prefixes, state: SortState, info: ProcessInfo): DisplayedProcess {
    DisplayedProcess(info.pid, info.startTime, [ProcessDisplayName(prefixes, state, info), info.startTimeText, info.path])
  }

  // ---- Filtering ----

  predicate FoundAt(s: string, part: string, i: int) {
    0 <= i <= |s| - |part| && s[i..i + |part|] == part
  }

  predicate Contains(s: string, part: string) {
    exists i | 0 <= i <= |s| :: FoundAt(s, part, i)
  }

  datatype Filter = Filter(text: string, hookedOnly: bool)

  predicate Passes(lower: char -> char, filter: Filter, hooked: set<(Pid, nat)>, info: ProcessInfo) {
    && (filter.hookedOnly ==> (info.pid, info.startTime) in hooked)
    && (filter.text != "" ==> Contains(Lower(lower, Decimal(info.pid) + " " + info.name + " " + info.path), filter.text))
  }

  /** The part of the snapshot that is to be shown. */
  ghost function Filtered(lower: char -> char, filter: Filter, hooked: set<(Pid, nat)>, data: Snapshot): Snapshot {
    map p | p in data && Passes(lower, filter, hooked, data[p]) :: data[p]
  }

  ghost predicate PartOf(part: Snapshot, whole: Snapshot) {
    forall p :: p in part ==> p in whole && part[p] == whole[p]
  }

  /** The part of the filtered snapshot among the processes seen so far. */
  ghost predicate FilteredSoFar(lower: char -> char, filter: Filter, hooked: set<(Pid, nat)>, data: Snapshot, seen: seq<Pid>, rows: Snapshot) {
    && (forall p :: p in rows <==> p in seen && p in data && Passes(lower, filter, hooked, data[p]))
    && PartOf(rows, data)
  }

  lemma FilterStep(lower: char -> char, filter: Filter, hooked: set<(Pid, nat)>, data: Snapshot, seen: seq<Pid>, rows: Snapshot, p: Pid)
    requires FilteredSoFar(lower, filter, hooked, data, seen, rows) && p in data
    ensures FilteredSoFar(lower, filter, hooked, data, seen + [p],
              if Passes(lower, filter, hooked, data[p]) then rows[p := data[p]] else rows)
  {
    hide Passes;
  }

  lemma FilterDone(lower: char -> char, filter: Filter, hooked: set<(Pid, nat)>, data: Snapshot, seen: seq<Pid>, rows: Snapshot)
    requires FilteredSoFar(lower, filter, hooked, data, seen, rows) && forall p :: p in seen <==> p in data
    ensures rows == Filtered(lower, filter, hooked, data) && PartOf(rows, data)
  {
    hide Passes;
  }

  /** The snapshot made from a list of processes; a number listed twice stands for its last entry. */
  function SnapshotOf(rows: seq<ProcessInfo>): (data: Snapshot)
    ensures WellKeyed(data)
  {
    if rows == [] then map[]
    else
      var last := rows[|rows| - 1];
      SnapshotOf(rows[..|rows| - 1])[last.pid := last]
  }

  // ---- Bringing the rows up to date ----

  function Pids(rows: seq<DisplayedProcess>): (pids: seq<Pid>)
    ensures |pids| == |rows| && forall i :: 0 <= i < |rows| ==> pids[i] == rows[i].pid
  {
    seq(|rows|, i requires 0 <= i < |rows| => rows[i].pid)
  }

  /** The row shows the process as the snapshot has it. */
  ghost predicate UpToDate(target: Snapshot, prefixes: Prefixes, state: SortState, row: DisplayedProcess) {
    row.pid in target && row == RowOf(prefixes, state, target[row.pid])
  }

  /** Every process of the target is pending, lost or shown, and only one of these. */
  ghost predicate Accounted(target: Snapshot, lost: set<Pid>, pending: Snapshot, shown: seq<Pid>, p: Pid) {
    && (p in target <==> p in pending || p in lost || p in shown)
    && !(p in pending && p in lost) && !(p in pending && p in shown) && !(p in lost && p in shown)
  }

  ghost predicate AllAccounted(target: Snapshot, lost: set<Pid>, pending: Snapshot, shown: seq<Pid>) {
    forall p: Pid :: Accounted(target, lost, pending, shown, p)
  }

  ghost predicate AllUpToDate(target: Snapshot, prefixes: Prefixes, state: SortState, rows: seq<DisplayedProcess>) {
    forall i :: 0 <= i < |rows| ==> UpToDate(target, prefixes, state, rows[i])
  }

  /**
   The first `done` rows are up to date, and what is pending is exactly what none of them shows,
   apart from the processes whose row the list control refused to insert.
   */
  ghost predicate Reconciling(target: Snapshot, lost: set<Pid>, prefixes: Prefixes, state: SortState,
      rows: seq<DisplayedProcess>, pending: Snapshot, done: nat) {
    && done <= |rows| && Distinct(Pids(rows)) && PartOf(pending, target)
    && AllUpToDate(target, prefixes, state, rows[..done])
    && AllAccounted(target, lost, pending, Pids(rows[..done]))
  }

  /** The rows show exactly the target, apart from what was lost. */
  ghost predicate Installed(target: Snapshot, lost: set<Pid>, prefixes: Prefixes, state: SortState, rows: seq<DisplayedProcess>) {
    Reconciling(target, lost, prefixes, state, rows, map[], |rows|)
  }

  /** The row is that of a pending process, and not of an earlier one with the same number. */
  predicate Stays(row: DisplayedProcess, pending: Snapshot) {
    row.pid in pending && row.startTime == pending[row.pid].startTime
  }

  // ---- The steps of an update ----

  lemma PidsSnoc(rows: seq<DisplayedProcess>, row: DisplayedProcess)
    ensures Pids(rows + [row]) == Pids(rows) + [row.pid]
  {
  }

  lemma UpdateStarts(target: Snapshot, prefixes: Prefixes, state: SortState, rows: seq<DisplayedProcess>)
    requires Distinct(Pids(rows))
    ensures Reconciling(target, {}, prefixes, state, rows, target, 0)
  {
    assert rows[..0] == [] && Pids([]) == [];
  }

  lemma DistinctWithout(rows: seq<DisplayedProcess>, at: nat)
    requires Distinct(Pids(rows)) && at < |rows|
    ensures Distinct(Pids(rows[..at] + rows[at + 1..]))
  {
    var now := rows[..at] + rows[at + 1..];
    forall i, j | 0 <= i < j < |now| ensures Pids(now)[i] != Pids(now)[j] {
      assert now[i] == rows[if i < at then i else i + 1] && now[j] == rows[if j < at then j else j + 1];
      assert Pids(rows)[if i < at then i else i + 1] != Pids(rows)[if j < at then j else j + 1];
    }
  }

  lemma RowDeleted(target: Snapshot, lost: set<Pid>, prefixes: Prefixes, state: SortState,
      rows: seq<DisplayedProcess>, pending: Snapshot, done: nat)
    requires Reconciling(target, lost, prefixes, state, rows, pending, done) && done < |rows|
    ensures Reconciling(target, lost, prefixes, state, rows[..done] + rows[done + 1..], pending, done)
  {
    DistinctWithout(rows, done);
    assert (rows[..done] + rows[done + 1..])[..done] == rows[..done];
  }

  lemma Settled(target: Snapshot, lost: set<Pid>, pending: Snapshot, shown: seq<Pid>, p: Pid)
    requires AllAccounted(target, lost, pending, shown) && p in pending
    ensures AllAccounted(target, lost, pending - {p}, shown + [p])
    ensures AllAccounted(target, lost + {p}, pending - {p}, shown)
  {
    forall q: Pid
      ensures Accounted(target, lost, pending - {p}, shown + [p], q)
      ensures Accounted(target, lost + {p}, pending - {p}, shown, q)
    {
      assert Accounted(target, lost, pending, shown, q);
    }
  }

  lemma UpToDateSnoc(target: Snapshot, prefixes: Prefixes, state: SortState, rows: seq<DisplayedProcess>, row: DisplayedProcess)
    requires AllUpToDate(target, prefixes, state, rows) && UpToDate(target, prefixes, state, row)
    ensures AllUpToDate(target, prefixes, state, rows + [row])
  {
  }

  lemma RowKept(target: Snapshot, lost: set<Pid>, prefixes: Prefixes, state: SortState,
      rows: seq<DisplayedProcess>, pending: Snapshot, done: nat, row: DisplayedProcess)
    requires Reconciling(target, lost, prefixes, state, rows, pending, done) && done < |rows|
    requires row.pid == rows[done].pid && row.pid in pending && UpToDate(target, prefixes, state, row)
    ensures Reconciling(target, lost, prefixes, state, rows[done := row], pending - {row.pid}, done + 1)
  {
    var now := rows[done := row];
    hide UpToDate;
    assert Pids(now) == Pids(rows);
    assert now[..done + 1] == rows[..done] + [row];
    PidsSnoc(rows[..done], row);
    Settled(target, lost, pending, Pids(rows[..done]), row.pid);
    UpToDateSnoc(target, prefixes, state, rows[..done], row);
  }

  lemma RowInserted(target: Snapshot, lost: set<Pid>, prefixes: Prefixes, state: SortState,
      rows: seq<DisplayedProcess>, pending: Snapshot, row: DisplayedProcess)
    requires Reconciling(target, lost, prefixes, state, rows, pending, |rows|)
    requires row.pid in pending && UpToDate(target, prefixes, state, row)
    ensures Reconciling(target, lost, prefixes, state, rows + [row], pending - {row.pid}, |rows| + 1)
  {
    var now := rows + [row];
    hide UpToDate;
    assert rows[..|rows|] == rows && now[..|rows| + 1] == now;
    assert Accounted(target, lost, pending, Pids(rows), row.pid);
    PidsSnoc(rows, row);
    Settled(target, lost, pending, Pids(rows), row.pid);
    UpToDateSnoc(target, prefixes, state, rows, row);
    assert Distinct(Pids(rows) + [row.pid]);
  }

  lemma RowLost(target: Snapshot, lost: set<Pid>, prefixes: Prefixes, state: SortState,
      rows: seq<DisplayedProcess>, pending: Snapshot, done: nat, p: Pid)
    requires Reconciling(target, lost, prefixes, state, rows, pending, done) && p in pending
    ensures Reconciling(target, lost + {p}, prefixes, state, rows, pending - {p}, done)
  {
    Settled(target, lost, pending, Pids(rows[..done]), p);
  }

  /** A pending process is the target's, and a row made from it is up to date. */
  lemma PendingFits(target: Snapshot, lost: set<Pid>, prefixes: Prefixes, state: SortState,
      rows: seq<DisplayedProcess>, pending: Snapshot, done: nat, p: Pid)
    requires Reconciling(target, lost, prefixes, state, rows, pending, done) && WellKeyed(target) && p in pending
    ensures pending[p].pid == p && UpToDate(target, prefixes, state, RowOf(prefixes, state, pending[p]))
  {
  }

  lemma RowsMirrored(list: seq<ListRow>, displayed: seq<DisplayedProcess>, at: nat, native: ListRow, row: DisplayedProcess)
    requires Mirrors(list, displayed) && native == Show(row)
    ensures Mirrors(list + [native], displayed + [row])
    ensures at < |list| ==> Mirrors(list[at := native], displayed[at := row])
    ensures at < |list| ==> Mirrors(list[..at] + list[at + 1..], displayed[..at] + displayed[at + 1..])
  {
    hide Show;
  }

  /** What it means that an update has finished. */
  lemma InstalledIsTarget(target: Snapshot, lost: set<Pid>, prefixes: Prefixes, state: SortState, rows: seq<DisplayedProcess>)
    requires Installed(target, lost, prefixes, state, rows)
    ensures forall row :: row in rows ==> row.pid in target && row == RowOf(prefixes, state, target[row.pid])
    ensures forall p :: p in target && p !in lost <==> p in Pids(rows)
  {
    assert rows[..|rows|] == rows;
    forall p: Pid ensures p in target && p !in lost <==> p in Pids(rows) {
      assert Accounted(target, lost, map[], Pids(rows), p);
    }
  }

  /** The texts of every row of the list control are those of a process of the target. */
  lemma RowsShow(target: Snapshot, lost: set<Pid>, prefixes: Prefixes, state: SortState, list: seq<ListRow>,
      rows: seq<DisplayedProcess>, i: nat)
    requires Installed(target, lost, prefixes, state, rows) && Mirrors(list, rows) && WellKeyed(target) && i < |list|
    ensures list[i].data in target && IsNumber(list[i].text, 1, list[i].data)
    ensures var info := target[list[i].data];
            && list[i].columns[1] == info.startTimeText && list[i].columns[2] == info.path
            && list[i].columns[0] == if state == Unsorted && info.pid in prefixes then prefixes[info.pid] + info.name else info.name
    ensures rows[i].pid == list[i].data && rows[i].startTime == target[list[i].data].startTime && rows[i].columns == list[i].columns
  {
    InstalledIsTarget(target, lost, prefixes, state, rows);
    DecimalIsNumber(rows[i].pid);
    assert rows[i] in rows;
  }

  /** A process is found by any part of its number, name or path, in the words of the row and without regard to case. */
  lemma FilterFinds(lower: char -> char, filter: Filter, hooked: set<(Pid, nat)>, info: ProcessInfo, number: string)
    requires IsNumber(number, 1, info.pid)
    ensures var words := number + " " + info.name + " " + info.path;
            Passes(lower, filter, hooked, info) <==>
            && (!filter.hookedOnly || (info.pid, info.startTime) in hooked)
            && (exists before, after :: before + filter.text + after == Lower(lower, words))
  {
    DecimalIsNumber(info.pid);
    SameDigits(number, Decimal(info.pid), info.pid);
    hide Decimal, Lower;
    var s := Lower(lower, number + " " + info.name + " " + info.path);
    FoundIsPart(s, filter.text);
    if filter.text == "" {
      assert "" + filter.text + s == s;
    }
  }

  lemma FoundIsPart(s: string, part: string)
    ensures Contains(s, part) <==> exists before, after :: before + part + after == s
  {
    if Contains(s, part) {
      var i :| 0 <= i <= |s| && FoundAt(s, part, i);
      assert s[..i] + part + s[i + |part|..] == s;
    }
    if before, after :| before + part + after == s {
      assert s[|before|..|before| + |part|] == part;
      assert FoundAt(s, part, |before|);
    }
  }

  // ---- The order of the rows ----

  ghost predicate InProcessOrder(lower: char -> char, data: Snapshot, view: Ordering, rows: seq<DisplayedProcess>) {
    forall i, j :: 0 <= i < j < |rows| ==> RowPrecedes(lower, data, view, rows[i], rows[j])
  }

  ghost predicate RowPrecedes(lower: char -> char, data: Snapshot, view: Ordering, a: DisplayedProcess, b: DisplayedProcess) {
    a.pid in data && b.pid in data && Precedes(lower, view, data[a.pid], data[b.pid])
  }

  /** The rows stand in the order of the tree. */
  ghost predicate FollowsTree(order: seq<Pid>, rows: seq<DisplayedProcess>) {
    forall i, j :: 0 <= i < j < |rows| ==> ComesBefore(order, rows[i].pid, rows[j].pid)
  }

  lemma UnsortedFollowsTree(lower: char -> char, data: Snapshot, order: seq<Pid>, view: Ordering, rows: seq<DisplayedProcess>)
    requires InProcessOrder(lower, data, view, rows) && view.state == Unsorted
    requires Numbered(data, order, 0) && Members(order) == data.Keys && Distinct(order)
    ensures FollowsTree(order, rows)
  {
    forall i, j | 0 <= i < j < |rows| ensures ComesBefore(order, rows[i].pid, rows[j].pid) {
      assert RowPrecedes(lower, data, view, rows[i], rows[j]);
      assert rows[i].pid in Members(order) && rows[j].pid in Members(order);
      var a :| 0 <= a < |order| && order[a] == rows[i].pid;
      var b :| 0 <= b < |order| && order[b] == rows[j].pid;
      assert data[order[a]].treeOrder == a && data[order[b]].treeOrder == b;
    }
  }

  function RowLess(lower: char -> char, data: Snapshot, view: Ordering): (DisplayedProcess, DisplayedProcess) -> bool {
    (a: DisplayedProcess, b: DisplayedProcess) => Before(lower, data, view, a.pid, b.pid)
  }

  function NativeLess(lower: char -> char, data: Snapshot, view: Ordering): (ListRow, ListRow) -> bool {
    (a: ListRow, b: ListRow) => Before(lower, data, view, a.data, b.data)
  }

  /** The rows belong to different processes, all of them in the snapshot. */
  ghost predicate Sortable(data: Snapshot, rows: seq<DisplayedProcess>) {
    Distinct(Pids(rows)) && forall row :: row in rows ==> row.pid in data
  }

  lemma SamePidSameRow(rows: seq<DisplayedProcess>, a: DisplayedProcess, b: DisplayedProcess)
    requires Distinct(Pids(rows)) && a in rows && b in rows
    ensures a.pid == b.pid ==> a == b
  {
    var i :| 0 <= i < |rows| && rows[i] == a;
    var j :| 0 <= j < |rows| && rows[j] == b;
    assert Pids(rows)[i] == a.pid && Pids(rows)[j] == b.pid;
  }

  lemma RowsAreStrict(lower: char -> char, data: Snapshot, view: Ordering, rows: seq<DisplayedProcess>)
    requires WellKeyed(data) && Sortable(data, rows)
    ensures StrictOrder(RowLess(lower, data, view), rows)
  {
    hide CompareProcessItems, Pids;
    var less := RowLess(lower, data, view);
    forall x, y | x in rows && y in rows && x != y
      ensures (less(x, y) || less(y, x)) && !(less(x, y) && less(y, x))
    {
      CompareTurns(lower, data, view, x.pid, y.pid);
      SamePidSameRow(rows, x, y);
    }
    forall x | x in rows ensures !less(x, x) {
      CompareTurns(lower, data, view, x.pid, x.pid);
    }
    forall x, y, z | x in rows && y in rows && z in rows && less(x, y) && less(y, z) ensures less(x, z) {
      BeforeChains(lower, data, view, x.pid, y.pid, z.pid);
    }
  }

  lemma NativeIsStrict(lower: char -> char, data: Snapshot, view: Ordering, rows: seq<DisplayedProcess>, list: seq<ListRow>)
    requires StrictOrder(RowLess(lower, data, view), rows)
    requires forall x :: x in list ==> exists row :: row in rows && x == Show(row)
    ensures StrictOrder(NativeLess(lower, data, view), list)
  {
    hide Before, Decimal;
    var less := NativeLess(lower, data, view);
    var rowLess := RowLess(lower, data, view);
    forall x, y | x in list && y in list && x != y
      ensures (less(x, y) || less(y, x)) && !(less(x, y) && less(y, x))
    {
      var a :| a in rows && x == Show(a);
      var b :| b in rows && y == Show(b);
      assert rowLess(a, b) == less(x, y) && rowLess(b, a) == less(y, x);
    }
    forall x | x in list ensures !less(x, x) {
      var a :| a in rows && x == Show(a);
      assert !rowLess(a, a);
    }
    forall x, y, z | x in list && y in list && z in list && less(x, y) && less(y, z) ensures less(x, z) {
      var a :| a in rows && x == Show(a);
      var b :| b in rows && y == Show(b);
      var c :| c in rows && z == Show(c);
      assert rowLess(a, b) && rowLess(b, c);
    }
  }

  lemma MirrorsAreShown(list: seq<ListRow>, displayed: seq<DisplayedProcess>)
    requires Mirrors(list, displayed)
    ensures forall x :: x in list <==> exists row :: row in displayed && x == Show(row)
  {
    forall x | x in list ensures exists row :: row in displayed && x == Show(row) {
      var i :| 0 <= i < |list| && list[i] == x;
      assert displayed[i] in displayed && x == Show(displayed[i]);
    }
  }

  lemma MirrorsDistinct(list: seq<ListRow>, displayed: seq<DisplayedProcess>)
    requires Mirrors(list, displayed) && Distinct(Pids(displayed))
    ensures Distinct(list) && Distinct(displayed)
  {
    forall i, j | 0 <= i < j < |list| ensures list[i] != list[j] && displayed[i] != displayed[j] {
      assert Pids(displayed)[i] != Pids(displayed)[j];
    }
  }

  /** Sorting the native list and its mirror on their own leaves them in the same order. */
  lemma BothSorted(lower: char -> char, data: Snapshot, view: Ordering, list: seq<ListRow>, displayed: seq<DisplayedProcess>,
      nowList: seq<ListRow>, nowDisplayed: seq<DisplayedProcess>)
    requires WellKeyed(data) && Sortable(data, displayed) && Mirrors(list, displayed)
    requires SameElements(nowList, list) && Sorted(NativeLess(lower, data, view), nowList)
    requires SameElements(nowDisplayed, displayed) && Sorted(RowLess(lower, data, view), nowDisplayed)
    ensures Mirrors(nowList, nowDisplayed)
  {
    hide Before, Decimal, Pids;
    var shown := seq(|nowDisplayed|, i requires 0 <= i < |nowDisplayed| => Show(nowDisplayed[i]));
    assert Mirrors(shown, nowDisplayed);
    MirrorsAreShown(shown, nowDisplayed);
    MirrorsAreShown(list, displayed);
    assert SameElements(shown, nowList);
    forall i, j | 0 <= i < j < |shown| ensures NativeLess(lower, data, view)(shown[i], shown[j]) {
      assert RowLess(lower, data, view)(nowDisplayed[i], nowDisplayed[j]);
    }
    RowsAreStrict(lower, data, view, displayed);
    NativeIsStrict(lower, data, view, displayed, shown);
    SortIsUnique(NativeLess(lower, data, view), shown, nowList);
  }

  lemma SortedStaysInstalled(target: Snapshot, lost: set<Pid>, prefixes: Prefixes, state: SortState,
      rows: seq<DisplayedProcess>, now: seq<DisplayedProcess>)
    requires Installed(target, lost, prefixes, state, rows)
    requires SameElements(now, rows) && Distinct(now)
    ensures Installed(target, lost, prefixes, state, now)
  {
    assert rows[..|rows|] == rows && now[..|now|] == now;
    hide UpToDate;
    forall i | 0 <= i < |now| ensures UpToDate(target, prefixes, state, now[i]) {
      assert now[i] in rows;
      var k :| 0 <= k < |rows| && rows[k] == now[i];
    }
    forall i, j | 0 <= i < j < |now| ensures Pids(now)[i] != Pids(now)[j] {
      assert now[i] in rows && now[j] in rows;
      SamePidSameRow(rows, now[i], now[j]);
    }
    SamePids(rows, now);
    forall p: Pid ensures Accounted(target, lost, map[], Pids(now), p) {
      assert Accounted(target, lost, map[], Pids(rows), p);
    }
  }

  lemma SamePids(rows: seq<DisplayedProcess>, now: seq<DisplayedProcess>)
    requires SameElements(now, rows)
    ensures forall p :: p in Pids(rows) <==> p in Pids(now)
  {
    forall p | p in Pids(rows) ensures p in Pids(now) {
      var i :| 0 <= i < |rows| && Pids(rows)[i] == p;
      assert rows[i] in now;
      var j :| 0 <= j < |now| && now[j] == rows[i];
      assert Pids(now)[j] == p;
    }
    forall p | p in Pids(now) ensures p in Pids(rows) {
      var i :| 0 <= i < |now| && Pids(now)[i] == p;
      assert now[i] in rows;
      var j :| 0 <= j < |rows| && rows[j] == now[i];
      assert Pids(rows)[j] == p;
    }
  }

  lemma SameRows(target: Snapshot, prefixes: Prefixes, state: SortState, a: seq<DisplayedProcess>, b: seq<DisplayedProcess>)
    requires forall row :: row in a ==> row.pid in target && row == RowOf(prefixes, state, target[row.pid])
    requires forall row :: row in b ==> row.pid in target && row == RowOf(prefixes, state, target[row.pid])
    requires forall p :: p in Pids(a) ==> p in Pids(b)
    ensures forall row :: row in a ==> row in b
  {
    hide RowOf;
    forall row | row in a ensures row in b {
      var i :| 0 <= i < |a| && a[i] == row;
      assert Pids(a)[i] == row.pid && row.pid in Pids(a) && row.pid in Pids(b);
      var j :| 0 <= j < |b| && Pids(b)[j] == row.pid;
      assert b[j] in b && b[j].pid == row.pid;
    }
  }

  lemma {:induction false} DistinctRows(a: seq<DisplayedProcess>, b: seq<DisplayedProcess>)
    requires Distinct(Pids(a)) && Distinct(Pids(b)) && forall row :: row in a <==> row in b
    ensures |a| == |b|
  {
    assert Distinct(a) by {
      forall i, j | 0 <= i < j < |a| ensures a[i] != a[j] {
        assert Pids(a)[i] != Pids(a)[j];
      }
    }
    assert Distinct(b) by {
      forall i, j | 0 <= i < j < |b| ensures b[i] != b[j] {
        assert Pids(b)[i] != Pids(b)[j];
      }
    }
    SameCount(a, b);
  }

  /** Snapshot, filter and sorting decide what the page shows, whatever it showed before. */
  lemma RowsAreDetermined(lower: char -> char, data: Snapshot, view: Ordering, prefixes: Prefixes,
      target: Snapshot, lost: set<Pid>, a: seq<DisplayedProcess>, b: seq<DisplayedProcess>)
    requires WellKeyed(data) && PartOf(target, data)
    requires Installed(target, lost, prefixes, view.state, a) && Installed(target, lost, prefixes, view.state, b)
    requires InProcessOrder(lower, data, view, a) && InProcessOrder(lower, data, view, b)
    ensures a == b
  {
    InstalledIsTarget(target, lost, prefixes, view.state, a);
    InstalledIsTarget(target, lost, prefixes, view.state, b);
    assert Distinct(Pids(a)) && Distinct(Pids(b));
    hide Before, RowOf, Installed, InProcessOrder;
    SameRows(target, prefixes, view.state, a, b);
    SameRows(target, prefixes, view.state, b, a);
    DistinctRows(a, b);
    RowsAreStrict(lower, data, view, a);
    InOrderIsSorted(lower, data, view, a);
    InOrderIsSorted(lower, data, view, b);
    SortIsUnique(RowLess(lower, data, view), a, b);
  }

  /** The row with the name that goes with the sorting. */
  ghost predicate Renamed(target: Snapshot, prefixes: Prefixes, state: SortState, row: DisplayedProcess, now: DisplayedProcess) {
    row.pid in target &&
    now == row.(columns := row.columns[0 := ProcessDisplayName(prefixes, state, target[row.pid])])
  }

  ghost predicate RowKnown(target: Snapshot, data: Snapshot, row: DisplayedProcess) {
    row.pid in target && row.pid in data && data[row.pid] == target[row.pid]
  }

  lemma NameIsRenamed(target: Snapshot, data: Snapshot, prefixes: Prefixes, state: SortState, row: DisplayedProcess)
    requires RowKnown(target, data, row)
    ensures row.pid in data
    ensures Renamed(target, prefixes, state, row,
              row.(columns := row.columns[0 := ProcessDisplayName(prefixes, state, data[row.pid])]))
  {
  }

  lemma RenamedKeepsPids(target: Snapshot, prefixes: Prefixes, state: SortState,
      rows: seq<DisplayedProcess>, now: seq<DisplayedProcess>)
    requires |now| == |rows| && forall i :: 0 <= i < |rows| ==> Renamed(target, prefixes, state, rows[i], now[i])
    ensures Pids(now) == Pids(rows)
  {
    forall i | 0 <= i < |rows| ensures Pids(now)[i] == Pids(rows)[i] {
      assert Renamed(target, prefixes, state, rows[i], now[i]);
    }
  }

  lemma RenamedStaysInstalled(target: Snapshot, lost: set<Pid>, prefixes: Prefixes, before: SortState, after: SortState,
      rows: seq<DisplayedProcess>, now: seq<DisplayedProcess>)
    requires Installed(target, lost, prefixes, before, rows) && |now| == |rows|
    requires forall i :: 0 <= i < |rows| ==> Renamed(target, prefixes, after, rows[i], now[i])
    ensures Installed(target, lost, prefixes, after, now)
  {
    assert rows[..|rows|] == rows && now[..|now|] == now;
    hide ProcessDisplayName;
    forall i | 0 <= i < |now| ensures UpToDate(target, prefixes, after, now[i]) {
      assert UpToDate(target, prefixes, before, rows[i]);
      assert Renamed(target, prefixes, after, rows[i], now[i]);
      assert now[i].columns == RowOf(prefixes, after, target[rows[i].pid]).columns;
    }
    RenamedKeepsPids(target, prefixes, after, rows, now);
  }

  lemma InstalledIsSortable(target: Snapshot, lost: set<Pid>, prefixes: Prefixes, state: SortState,
      rows: seq<DisplayedProcess>, data: Snapshot)
    requires Installed(target, lost, prefixes, state, rows) && PartOf(target, data)
    ensures Sortable(data, rows)
  {
    InstalledIsTarget(target, lost, prefixes, state, rows);
  }

  lemma SortedIsInOrder(lower: char -> char, data: Snapshot, view: Ordering, was: seq<DisplayedProcess>, rows: seq<DisplayedProcess>)
    requires Sortable(data, was) && SameElements(rows, was) && Sorted(RowLess(lower, data, view), rows)
    ensures InProcessOrder(lower, data, view, rows)
  {
    hide Before, Precedes;
    forall i, j | 0 <= i < j < |rows| ensures RowPrecedes(lower, data, view, rows[i], rows[j]) {
      assert rows[i] in rows && rows[j] in rows;
      assert RowLess(lower, data, view)(rows[i], rows[j]);
      BeforeMeans(lower, data, view, rows[i].pid, rows[j].pid);
    }
  }

  lemma InOrderIsSorted(lower: char -> char, data: Snapshot, view: Ordering, rows: seq<DisplayedProcess>)
    requires InProcessOrder(lower, data, view, rows)
    ensures Sorted(RowLess(lower, data, view), rows)
  {
    hide Before, Precedes;
    forall i, j | 0 <= i < j < |rows| ensures RowLess(lower, data, view)(rows[i], rows[j]) {
      assert RowPrecedes(lower, data, view, rows[i], rows[j]);
      BeforeMeans(lower, data, view, rows[i].pid, rows[j].pid);
    }
  }

  lemma SamePidsSameOrder(lower: char -> char, data: Snapshot, view: Ordering, rows: seq<DisplayedProcess>, now: seq<DisplayedProcess>)
    requires InProcessOrder(lower, data, view, rows) && Pids(now) == Pids(rows)
    ensures InProcessOrder(lower, data, view, now)
  {
    forall i | 0 <= i < |now| ensures now[i].pid == rows[i].pid {
      assert Pids(now)[i] == Pids(rows)[i];
    }
  }

  lemma UpdateEnds(target: Snapshot, lost: set<Pid>, prefixes: Prefixes, state: SortState,
      rows: seq<DisplayedProcess>, pending: Snapshot, done: nat)
    requires Reconciling(target, lost, prefixes, state, rows, pending, done) && done >= |rows| && pending == map[]
    ensures Installed(target, lost, prefixes, state, rows)
  {
  }

  // ---- What always holds of the page ----

  /** The snapshot is numbered and drawn. */
  ghost predicate SnapshotFits(data: Snapshot, prefixes: Prefixes, order: seq<Pid>) {
    WellKeyed(data) && ForestOrder(data, order) && DrawsForest(data, prefixes)
  }

  /** The native rows and their mirror agree, and no process has two rows. */
  ghost predicate RowsAgree(list: seq<ListRow>, displayed: seq<DisplayedProcess>) {
    Mirrors(list, displayed) && Distinct(Pids(displayed))
  }

  /** The rows show the target, or are on their way there. */
  ghost predicate RowsFit(target: Snapshot, lost: set<Pid>, prefixes: Prefixes, state: SortState,
      rows: seq<DisplayedProcess>, pending: Snapshot, done: nat, applying: bool) {
    if applying then Reconciling(target, lost, prefixes, state, rows, pending, done)
    else pending == map[] && Installed(target, lost, prefixes, state, rows)
  }

  ghost predicate UpdateFits(target: Snapshot, lost: set<Pid>, prefixes: Prefixes, state: SortState,
      list: seq<ListRow>, rows: seq<DisplayedProcess>, pending: Snapshot, done: nat) {
    && Mirrors(list, rows) && WellKeyed(target) && done <= |rows|
    && Reconciling(target, lost, prefixes, state, rows, pending, done)
  }

  lemma UpdateUnderWay(data: Snapshot, order: seq<Pid>, target: Snapshot, lost: set<Pid>, prefixes: Prefixes, state: SortState,
      list: seq<ListRow>, rows: seq<DisplayedProcess>, pending: Snapshot, done: nat)
    requires SnapshotFits(data, prefixes, order) && RowsAgree(list, rows) && PartOf(target, data)
    requires RowsFit(target, lost, prefixes, state, rows, pending, done, true)
    ensures UpdateFits(target, lost, prefixes, state, list, rows, pending, done) && WellKeyed(data)
  {
  }

  lemma UpdateFitsRows(target: Snapshot, lost: set<Pid>, prefixes: Prefixes, state: SortState,
      list: seq<ListRow>, rows: seq<DisplayedProcess>, pending: Snapshot, done: nat)
    requires UpdateFits(target, lost, prefixes, state, list, rows, pending, done)
    ensures RowsAgree(list, rows) && RowsFit(target, lost, prefixes, state, rows, pending, done, true)
  {
  }

  lemma UpdateMayStart(target: Snapshot, prefixes: Prefixes, state: SortState, rows: seq<DisplayedProcess>)
    requires Distinct(Pids(rows))
    ensures RowsFit(target, {}, prefixes, state, rows, target, 0, true)
  {
    UpdateStarts(target, prefixes, state, rows);
  }

  lemma InstalledFits(target: Snapshot, lost: set<Pid>, prefixes: Prefixes, state: SortState,
      list: seq<ListRow>, rows: seq<DisplayedProcess>, done: nat)
    requires Installed(target, lost, prefixes, state, rows) && Mirrors(list, rows)
    ensures RowsAgree(list, rows) && RowsFit(target, lost, prefixes, state, rows, map[], done, false)
  {
  }

  lemma SettledPage(data: Snapshot, order: seq<Pid>, target: Snapshot, lost: set<Pid>, prefixes: Prefixes, state: SortState,
      list: seq<ListRow>, rows: seq<DisplayedProcess>, done: nat)
    requires SnapshotFits(data, prefixes, order) && RowsAgree(list, rows)
    requires RowsFit(target, lost, prefixes, state, rows, map[], done, false)
    ensures WellKeyed(data) && Mirrors(list, rows) && Installed(target, lost, prefixes, state, rows)
  {
  }

  /** Nothing is shown of nothing. */
  lemma EmptyPage(state: SortState, done: nat)
    ensures SnapshotFits(map[], map[], []) && RowsAgree([], []) && PartOf(map[], map[])
    ensures RowsFit(map[], {}, map[], state, [], map[], done, false)
  {
    var nothing: Snapshot, order: seq<Pid> := map[], [];
    assert Members(order) == nothing.Keys;
  }

  lemma UnsortedRowsFollow(lower: char -> char, data: Snapshot, prefixes: Prefixes, order: seq<Pid>, view: Ordering,
      rows: seq<DisplayedProcess>)
    requires SnapshotFits(data, prefixes, order) && InProcessOrder(lower, data, view, rows) && view.state == Unsorted
    ensures FollowsTree(order, rows)
  {
    UnsortedFollowsTree(lower, data, order, view, rows);
  }
}
