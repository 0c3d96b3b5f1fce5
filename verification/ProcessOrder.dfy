/** The order of the process list, in every column and both directions. */
module ProcessOrder {
  import opened Text
  import opened Sorting
  import opened ProcessForest

  datatype SortState = Unsorted | Ascending | Descending

  datatype Ordering = Ordering(column: int, state: SortState)

  function CompareInts(a: int, b: int): (sign: int) {
    if a < b then -1 else if a > b then 1 else 0
  }

  /** Compares two texts without regard to case, character by character. */
  function CompareText(lower: char -> char, a: string, b: string): (sign: int) {
    if a == "" || b == "" then CompareInts(|a|, |b|)
    else
      var first := CompareInts(lower(a[0]) as int, lower(b[0]) as int);
      if first != 0 then first else CompareText(lower, a[1..], b[1..])
  }

  function CompareProcessItems(lower: char -> char, data: Snapshot, view: Ordering, leftPid: Pid, rightPid: Pid): (sign: int) {
    if leftPid !in data || rightPid !in data then
      if leftPid !in data && rightPid !in data then 0
      else if leftPid !in data then 1 else -1
    else
      var left, right := data[leftPid], data[rightPid];
      if view.state != Unsorted && view.column == 2 && left.hasStartTime != right.hasStartTime then
        if left.hasStartTime then -1 else 1
      else
        var result := CompareColumn(lower, view, left, right);
        if result != 0 then result else CompareInts(left.pid, right.pid)
  }

  function CompareColumn(lower: char -> char, view: Ordering, left: ProcessInfo, right: ProcessInfo): (sign: int) {
    if view.state == Unsorted || view.column < 0 then CompareInts(left.treeOrder, right.treeOrder)
    else
      var result :=
        if view.column == 0 then CompareInts(left.pid, right.pid)
        else if view.column == 1 then CompareText(lower, left.name, right.name)
        else if view.column == 2 && left.hasStartTime then CompareInts(left.startTime, right.startTime)
        else if view.column == 3 then CompareText(lower, left.path, right.path)
        else 0;
      if view.state == Descending then -result else result
  }

  lemma {:induction false} CompareTextTurns(lower: char -> char, a: string, b: string)
    ensures -1 <= CompareText(lower, a, b) <= 1
    ensures CompareText(lower, a, b) == -CompareText(lower, b, a)
    ensures CompareText(lower, a, a) == 0
    decreases |a|
  {
    if a != "" {
      if b != "" {
        CompareTextTurns(lower, a[1..], b[1..]);
      }
      CompareTextTurns(lower, a[1..], a[1..]);
    }
  }

  lemma {:induction false} CompareTextChains(lower: char -> char, a: string, b: string, c: string)
    requires CompareText(lower, a, b) <= 0 && CompareText(lower, b, c) <= 0
    ensures CompareText(lower, a, c) <= 0
    ensures CompareText(lower, a, b) < 0 || CompareText(lower, b, c) < 0 ==> CompareText(lower, a, c) < 0
  {
    if a != "" && b != "" && c != "" && CompareText(lower, a, b) == CompareText(lower, a[1..], b[1..]) &&
       CompareText(lower, b, c) == CompareText(lower, b[1..], c[1..]) && lower(a[0]) == lower(b[0]) == lower(c[0]) {
      CompareTextChains(lower, a[1..], b[1..], c[1..]);
    }
  }

  /** What sorts before everything else in a column: a known start time. */
  function Group(view: Ordering, info: ProcessInfo): int {
    if view.state != Unsorted && view.column == 2 && !info.hasStartTime then 1 else 0
  }

  lemma CompareColumnTurns(lower: char -> char, view: Ordering, x: ProcessInfo, y: ProcessInfo)
    requires Group(view, x) == Group(view, y)
    ensures CompareColumn(lower, view, x, y) == -CompareColumn(lower, view, y, x)
    ensures CompareColumn(lower, view, x, x) == 0
  {
    hide CompareText;
    CompareTextTurns(lower, x.name, y.name);
    CompareTextTurns(lower, x.path, y.path);
    CompareTextTurns(lower, x.name, x.name);
    CompareTextTurns(lower, x.path, x.path);
  }

  lemma CompareColumnChains(lower: char -> char, view: Ordering, x: ProcessInfo, y: ProcessInfo, z: ProcessInfo)
    requires Group(view, x) == Group(view, y) == Group(view, z)
    requires CompareColumn(lower, view, x, y) <= 0 && CompareColumn(lower, view, y, z) <= 0
    ensures CompareColumn(lower, view, x, z) <= 0
    ensures CompareColumn(lower, view, x, y) < 0 || CompareColumn(lower, view, y, z) < 0 ==> CompareColumn(lower, view, x, z) < 0
  {
    hide CompareText;
    if view.state != Unsorted && (view.column == 1 || view.column == 3) {
      var a, b, c := if view.column == 1 then x.name else x.path, if view.column == 1 then y.name else y.path,
                     if view.column == 1 then z.name else z.path;
      CompareTextTurns(lower, a, b);
      CompareTextTurns(lower, b, c);
      CompareTextTurns(lower, a, c);
      if view.state == Ascending {
        CompareTextChains(lower, a, b, c);
      } else {
        CompareTextChains(lower, c, b, a);
      }
    }
  }

  predicate Before(lower: char -> char, data: Snapshot, view: Ordering, x: Pid, y: Pid) {
    CompareProcessItems(lower, data, view, x, y) < 0
  }

  /** The order never depends on the side from which it is asked, and ties only missing processes. */
  lemma CompareTurns(lower: char -> char, data: Snapshot, view: Ordering, x: Pid, y: Pid)
    requires WellKeyed(data)
    ensures CompareProcessItems(lower, data, view, x, y) == -CompareProcessItems(lower, data, view, y, x)
    ensures CompareProcessItems(lower, data, view, x, y) == 0 <==> x == y || (x !in data && y !in data)
  {
    hide CompareColumn;
    if x in data && y in data && Group(view, data[x]) == Group(view, data[y]) {
      CompareColumnTurns(lower, view, data[x], data[y]);
    }
  }

  lemma BeforeChains(lower: char -> char, data: Snapshot, view: Ordering, x: Pid, y: Pid, z: Pid)
    requires WellKeyed(data) && Before(lower, data, view, x, y) && Before(lower, data, view, y, z)
    ensures Before(lower, data, view, x, z)
  {
    hide CompareColumn;
    if x in data && y in data && z in data && Group(view, data[x]) == Group(view, data[y]) == Group(view, data[z]) {
      CompareColumnChains(lower, view, data[x], data[y], data[z]);
    }
  }

  /**
   Whatever the column and the direction, the order arranges processes in exactly one way, if and
   only if at most one of them is missing from the snapshot.
   */
  lemma OrderIsStrict(lower: char -> char, data: Snapshot, view: Ordering, pids: seq<Pid>)
    requires WellKeyed(data)
    ensures StrictOrder((x: Pid, y: Pid) => Before(lower, data, view, x, y), pids)
       <==> forall x, y :: x in pids && y in pids && x !in data && y !in data ==> x == y
  {
    hide CompareProcessItems;
    var less := (x: Pid, y: Pid) => Before(lower, data, view, x, y);
    forall x: Pid, y: Pid, z: Pid | less(x, y) && less(y, z) ensures less(x, z) {
      BeforeChains(lower, data, view, x, y, z);
    }
    forall x: Pid, y: Pid
      ensures !(less(x, y) && less(y, x))
      ensures less(x, y) || less(y, x) || x == y || (x !in data && y !in data)
      ensures x !in data && y !in data ==> !less(x, y)
    {
      CompareTurns(lower, data, view, x, y);
    }
    if x, y :| x in pids && y in pids && x !in data && y !in data && x != y {
      assert !less(x, y) && !less(y, x);
    }
  }

  // ---- What the order means ----

  /** As in a dictionary: the first letter that differs decides, and a text comes before its continuations. */
  ghost predicate DictionaryBefore(lower: char -> char, a: string, b: string) {
    exists k: nat :: FirstDifference(lower, a, b, k)
  }

  ghost predicate FirstDifference(lower: char -> char, a: string, b: string, k: nat) {
    && k <= |a| && k < |b| && SameLetters(lower, a[..k], b[..k])
    && (k < |a| ==> lower(a[k]) < lower(b[k]))
  }

  lemma {:induction false} CompareTextMeans(lower: char -> char, a: string, b: string)
    ensures CompareText(lower, a, b) < 0 <==> DictionaryBefore(lower, a, b)
    ensures CompareText(lower, a, b) == 0 <==> SameLetters(lower, a, b)
    decreases |a|
  {
    if a == "" {
      assert b != "" ==> FirstDifference(lower, a, b, 0);
    } else if b != "" {
      CompareTextMeans(lower, a[1..], b[1..]);
      if lower(a[0]) == lower(b[0]) {
        SameTails(lower, a, b);
      } else {
        assert lower(a[0]) < lower(b[0]) ==> FirstDifference(lower, a, b, 0);
      }
    }
  }

  lemma SameTails(lower: char -> char, a: string, b: string)
    requires a != "" && b != "" && lower(a[0]) == lower(b[0])
    ensures DictionaryBefore(lower, a, b) <==> DictionaryBefore(lower, a[1..], b[1..])
    ensures SameLetters(lower, a, b) <==> SameLetters(lower, a[1..], b[1..])
  {
    forall k: nat ensures FirstDifference(lower, a, b, k + 1) <==> FirstDifference(lower, a[1..], b[1..], k) {
      if k <= |a| - 1 && k <= |b| - 1 {
        assert a[..k + 1][1..] == a[1..][..k] && b[..k + 1][1..] == b[1..][..k];
        SameButFirst(lower, a[..k + 1], b[..k + 1]);
      }
    }
    assert !FirstDifference(lower, a, b, 0);
    if k: nat :| FirstDifference(lower, a, b, k) {
      assert FirstDifference(lower, a[1..], b[1..], k - 1);
    }
    SameButFirst(lower, a, b);
  }

  lemma SameButFirst(lower: char -> char, a: string, b: string)
    requires a != "" && b != "" && lower(a[0]) == lower(b[0])
    ensures SameLetters(lower, a, b) <==> SameLetters(lower, a[1..], b[1..])
  {
    if SameLetters(lower, a[1..], b[1..]) {
      forall i | 0 <= i < |a| ensures lower(a[i]) == lower(b[i]) {
        assert i > 0 ==> a[i] == a[1..][i - 1] && b[i] == b[1..][i - 1];
      }
    }
  }

  /** The value in the sorted column decides, upwards or downwards, and the number between equal ones; no start time is last. */
  ghost predicate Precedes(lower: char -> char, view: Ordering, x: ProcessInfo, y: ProcessInfo) {
    var first, second := if view.state == Descending then y else x, if view.state == Descending then x else y;
    if view.state == Unsorted || view.column < 0 then x.treeOrder < y.treeOrder || (x.treeOrder == y.treeOrder && x.pid < y.pid)
    else match view.column
      case 0 => first.pid < second.pid
      case 1 => DictionaryBefore(lower, first.name, second.name) || (SameLetters(lower, x.name, y.name) && x.pid < y.pid)
      case 2 =>
        || (x.hasStartTime && !y.hasStartTime)
        || (x.hasStartTime && y.hasStartTime && first.startTime < second.startTime)
        || (x.hasStartTime == y.hasStartTime && (x.hasStartTime ==> x.startTime == y.startTime) && x.pid < y.pid)
      case 3 => DictionaryBefore(lower, first.path, second.path) || (SameLetters(lower, x.path, y.path) && x.pid < y.pid)
      case _ => x.pid < y.pid
  }

  lemma BeforeMeans(lower: char -> char, data: Snapshot, view: Ordering, x: Pid, y: Pid)
    requires x in data && y in data
    ensures Before(lower, data, view, x, y) <==> Precedes(lower, view, data[x], data[y])
  {
    hide CompareText, DictionaryBefore, SameLetters;
    var a, b := data[x], data[y];
    CompareTextMeans(lower, a.name, b.name);
    CompareTextMeans(lower, b.name, a.name);
    CompareTextMeans(lower, a.path, b.path);
    CompareTextMeans(lower, b.path, a.path);
    CompareTextTurns(lower, a.name, b.name);
    CompareTextTurns(lower, a.path, b.path);
  }

  // ---- Siblings in the tree ----

  function DefaultLess(data: Snapshot, x: Pid, y: Pid): bool {
    if x !in data || y !in data || data[x].defaultOrder == data[y].defaultOrder then x < y
    else data[x].defaultOrder < data[y].defaultOrder
  }

  lemma DefaultIsStrict(data: Snapshot, pids: seq<Pid>)
    requires forall p :: p in pids ==> p in data
    ensures StrictOrder((x: Pid, y: Pid) => DefaultLess(data, x, y), pids)
  {
  }

  function TreeLess(data: Snapshot, x: Pid, y: Pid): bool {
    if x in data && y in data && data[x].treeOrder != data[y].treeOrder then data[x].treeOrder < data[y].treeOrder
    else x < y
  }

  lemma TreeIsStrict(data: Snapshot, pids: seq<Pid>)
    requires forall p :: p in pids ==> p in data
    ensures StrictOrder((x: Pid, y: Pid) => TreeLess(data, x, y), pids)
  {
  }
}
