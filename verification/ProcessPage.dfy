/** The process page: numbering a snapshot and bringing the list up to date with it. */
module ProcessPage {
  import opened Text
  import opened Sorting
  import opened ProcessForest
  import opened ProcessOrder
  import opened ProcessTree
  import opened ProcessFamilies
  import opened ProcessSiblings
  import opened ProcessRows

  lemma OneLess(m: Snapshot, p: Pid)
    requires p in m
    ensures |m - {p}| == |m| - 1
  {
    assert (m - {p}).Keys == m.Keys - {p};
  }

  class ProcessPage {
    const lower: char -> char
    /** The characters that the filter text is trimmed of. */
    const space: char -> bool

    var sortData: Snapshot
    var prefixes: Prefixes
    /** The native list control. */
    var list: seq<ListRow>
    /** The mirror of its rows. */
    var displayed: seq<DisplayedProcess>
    var pending: Snapshot
    var applyIndex: nat
    var applying: bool
    var view: Ordering
    var filter: Filter

    /** The processes in the order of the tree. */
    ghost var order: seq<Pid>
    /** What the rows are to show. */
    ghost var target: Snapshot
    /** The processes whose row the list control refused. */
    ghost var lost: set<Pid>

    ghost predicate Valid()
      reads this
    {
      && SnapshotFits(sortData, prefixes, order) && RowsAgree(list, displayed) && PartOf(target, sortData)
      && RowsFit(target, lost, prefixes, view.state, displayed, pending, applyIndex, applying)
    }

    /** The rows an update still has to look at, and those it still has to insert. */
    ghost function Work(): nat
      reads this`displayed, this`applyIndex, this`pending
    {
      (if applyIndex <= |displayed| then |displayed| - applyIndex else 0) + |pending|
    }

    constructor (lower: char -> char, space: char -> bool)
      ensures Valid() && !applying && list == [] && sortData == map[]
    {
      this.lower, this.space := lower, space;
      EmptyPage(Unsorted, 0);
      sortData, prefixes, list, displayed, pending := map[], map[], [], [], map[];
      applyIndex, applying, view, filter := 0, false, Ordering(-1, Unsorted), Filter("", false);
      order, target, lost := [], map[], {};
    }

    // ---- The process tree ----

    /** Files a process with its parent, or with the roots. */
    method Classify(pid: Pid, children: Children, roots: seq<Pid>, ghost data: Snapshot, ghost seen: seq<Pid>)
        returns (nowChildren: Children, nowRoots: seq<Pid>)
      requires SameButOrder(sortData, data) && WellKeyed(data) && pid in data && pid !in seen
      requires Families(data, seen, children, roots)
      ensures Families(data, seen + [pid], nowChildren, nowRoots)
    {
      nowChildren, nowRoots := children, roots;
      FamiliesStep(data, seen, children, roots, pid);
      SameParents(sortData, data, pid);
      assert pid in sortData;
      hide Families, ParentOf, ListOf, WellKeyed, SameButOrder;
      var parent := ParentOf(sortData, pid);
      if parent.Some? {
        nowChildren := children[parent.value := ListOf(children, parent.value) + [pid]];
      } else {
        nowRoots := roots + [pid];
      }
    }

    /** The children of each process and the processes without a parent, in no particular order. */
    method FindFamilies() returns (children: Children, roots: seq<Pid>)
      requires WellKeyed(sortData)
      modifies this`sortData
      ensures SameButOrder(sortData, old(sortData)) && WellKeyed(sortData)
      ensures ChildrenOf(sortData, children) && RootsOf(sortData, roots)
      ensures forall p: Pid, c: Pid :: c in ListOf(children, p) <==> ListedUnder(sortData, c, p)
      ensures forall c :: c in roots <==> c in sortData && !exists p :: ListedUnder(sortData, c, p)
      ensures Distinct(roots) && ListsWithin(children, sortData.Keys)
    {
      var pids := InKeyOrder(sortData.Keys);
      children, roots := map[], [];
      ghost var data := sortData;
      for i := 0 to |pids|
        invariant SameButOrder(sortData, data)
        invariant Families(data, pids[..i], children, roots)
      {
        var pid := pids[i];
        assert pids[..i + 1] == pids[..i] + [pid] && pid !in pids[..i] && pid in data;
        hide Families, ParentOf, ListOf, WellKeyed, SameButOrder, InKeyOrder;
        children, roots := Classify(pid, children, roots, data, pids[..i]);
        Renumbering(sortData, data, pid, -1);
        sortData := sortData[pid := sortData[pid].(treeOrder := -1)];
      }
      assert pids[..|pids|] == pids;
      FamiliesAre(data, sortData, pids, children, roots);
      FamiliesAreListed(sortData, children, roots);
    }

    /** Sorts processes without any order of their own as the system lists them. */
    method SortByDefault(pids: seq<Pid>) returns (sorted: seq<Pid>)
      requires Distinct(pids) && forall p :: p in pids ==> p in sortData
      ensures SameElements(sorted, pids) && InDefaultOrder(sortData, sorted) && Distinct(sorted)
    {
      var data := sortData;
      var less := (x: Pid, y: Pid) => DefaultLess(data, x, y);
      DefaultIsStrict(data, pids);
      sorted := Sort(less, pids);
      forall i, j | 0 <= i < j < |sorted| ensures DefaultLess(data, sorted[i], sorted[j]) {
        assert less(sorted[i], sorted[j]);
      }
      DefaultIsStrict(data, sorted);
      SortedIsDistinct(less, sorted);
    }

    method SortFamilies(children: Children) returns (sorted: Children)
      requires ChildrenOf(sortData, children) && ListsWithin(children, sortData.Keys)
      ensures ChildrenOf(sortData, sorted) && SortedLists(sortData, sorted)
      ensures ListsWithin(sorted, sortData.Keys)
    {
      var parents := InKeyOrder(children.Keys);
      sorted := children;
      assert SortedSoFar(sortData, children, sorted, parents, 0);
      assert forall p: Pid :: ListWithin(ListOf(children, p), sortData.Keys);
      hide ParentOf, DefaultLess, SortedSoFar, InDefaultOrder, SameElements;
      for i := 0 to |parents|
        invariant SortedSoFar(sortData, children, sorted, parents, i)
      {
        var list := SortByDefault(ListOf(children, parents[i]));
        SortingStep(sortData, children, sorted, parents, i, list);
        sorted := sorted[parents[i] := list];
      }
      SortingDone(sortData, children, sorted, parents);
    }

    /** Numbers a process and everything below it that has not been numbered yet. */
    method AppendProcessTree(pid: Pid, displayPrefix: string, childPrefix: string, children: Children,
        visited: set<Pid>, treeOrder: nat) returns (nowVisited: set<Pid>, next: nat, ghost added: seq<Pid>)
      requires childPrefix == Continue(displayPrefix) && ListsWithin(children, sortData.Keys)
      modifies this`sortData, this`prefixes
      ensures added == Visit(old(sortData).Keys, children, visited, pid)
      ensures nowVisited == visited + Members(added) && next == treeOrder + |added|
      ensures Appended(old(sortData), old(prefixes), sortData, prefixes, added, treeOrder)
      ensures sortData.Keys == old(sortData).Keys
      ensures pid in added ==> pid in prefixes && prefixes[pid] == displayPrefix
      ensures AllDrawn(children, prefixes, [pid], displayPrefix, added)
      decreases |sortData.Keys - visited|, 0
    {
      nowVisited, next, added := visited, treeOrder, [];
      if pid in visited || pid !in sortData {
        NothingAppended(sortData, prefixes, children, [pid], displayPrefix, treeOrder);
        assert visited + Members([]) == visited;
        return;
      }
      ghost var data, drawn, all := sortData, prefixes, sortData.Keys;
      VisitUnfolds(all, children, visited, pid);
      nowVisited := nowVisited + {pid};
      GrowingStart(data, drawn, children, pid, displayPrefix, next);
      sortData := sortData[pid := sortData[pid].(treeOrder := next)];
      next := next + 1;
      prefixes := prefixes[pid := displayPrefix];
      var childList := ListOf(children, pid);
      WalkStarts(all, children, visited + {pid}, childList);
      hide Growing, Walked, Visit, VisitAll, Appended, AllDrawn, Members, Continue, ListOf, ListsWithin, Branch, LastIn;
      for index := 0 to |childList|
        invariant sortData.Keys == all && next == treeOrder + 1 + |added|
        invariant Growing(data, drawn, sortData, prefixes, children, pid, displayPrefix, added, treeOrder)
        invariant Walked(all, children, visited + {pid}, childList, index, nowVisited, added)
      {
        WalkStep(all, children, visited + {pid}, childList, index, nowVisited, added);
        WalkLeavesLess(all, children, visited, pid, childList, index, nowVisited, added);
        ghost var first;
        nowVisited, next, first := AppendChild(pid, index, displayPrefix, childPrefix, children, nowVisited, next,
          data, drawn, added, treeOrder);
        added := added + first;
      }
      WalkEnds(all, children, visited + {pid}, childList, nowVisited, added);
      GrowingDone(data, drawn, sortData, prefixes, children, pid, displayPrefix, added, treeOrder);
      added := [pid] + added;
    }

    /** Numbers one child of a process, unless a cycle has led there already. */
    method AppendChild(pid: Pid, index: nat, displayPrefix: string, childPrefix: string, children: Children,
        visited: set<Pid>, treeOrder: nat, ghost data: Snapshot, ghost drawn: Prefixes, ghost done: seq<Pid>, ghost from: int)
        returns (nowVisited: set<Pid>, next: nat, ghost first: seq<Pid>)
      requires childPrefix == Continue(displayPrefix) && ListsWithin(children, sortData.Keys)
      requires index < |ListOf(children, pid)| && treeOrder == from + 1 + |done|
      requires Growing(data, drawn, sortData, prefixes, children, pid, displayPrefix, done, from)
      requires pid in visited && forall p :: p in done ==> p in visited
      modifies this`sortData, this`prefixes
      ensures sortData.Keys == old(sortData).Keys
      ensures first == Visit(old(sortData).Keys, children, visited, ListOf(children, pid)[index])
      ensures nowVisited == visited + Members(first) && next == treeOrder + |first|
      ensures Growing(data, drawn, sortData, prefixes, children, pid, displayPrefix, done + first, from)
      decreases |sortData.Keys - visited|, 1
    {
      nowVisited, next, first := visited, treeOrder, [];
      var childList := ListOf(children, pid);
      var child := childList[index];
      hide Growing;
      if child in visited {
        VisitedAddsNothing(sortData.Keys, children, visited, child);
        assert done + [] == done;
        return;
      }
      var isLastChild := index + 1 == |childList|;
      var childDisplayPrefix := childPrefix + Branch(isLastChild);
      var nextChildPrefix := childPrefix + Below(isLastChild);
      ContinueBranch(childPrefix, isLastChild);
      OnlyLastIsLast(children, sortData.Keys, pid, index);
      ghost var s1, d1 := sortData, prefixes;
      hide Visit, Appended, AllDrawn, Continue, ListsWithin, Branch, Below, LastIn, ListOf, Members;
      nowVisited, next, first := AppendProcessTree(child, childDisplayPrefix, nextChildPrefix, children, nowVisited, next);
      assert child in first && prefixes[child] == childDisplayPrefix;
      assert childDisplayPrefix == Continue(displayPrefix) + Branch(LastIn(children, pid, child));
      assert pid !in first && forall p :: p in done ==> p !in first;
      assert AllDrawn(children, prefixes, [child], prefixes[child], first);
      assert Growing(data, drawn, sortData, prefixes, children, pid, displayPrefix, done + first, from) by {
        GrowingStep(data, drawn, s1, d1, sortData, prefixes, children, pid, displayPrefix, done, from, child, first);
      }
    }

    /** Numbers a list of trees one after the other. */
    method AppendForest(heads: seq<Pid>, children: Children, visited: set<Pid>, treeOrder: nat)
        returns (nowVisited: set<Pid>, next: nat, ghost added: seq<Pid>)
      requires ListsWithin(children, sortData.Keys)
      modifies this`sortData, this`prefixes
      ensures added == VisitAll(old(sortData).Keys, children, visited, heads)
      ensures nowVisited == visited + Members(added) && next == treeOrder + |added|
      ensures Appended(old(sortData), old(prefixes), sortData, prefixes, added, treeOrder)
      ensures AllDrawn(children, prefixes, heads, "", added)
      ensures sortData.Keys == old(sortData).Keys
    {
      ghost var data, drawn, all := sortData, prefixes, sortData.Keys;
      nowVisited, next, added := visited, treeOrder, [];
      WalkStarts(all, children, visited, heads);
      NothingAppended(data, drawn, children, heads, "", treeOrder);
      hide Walked, Visit, VisitAll, Appended, AllDrawn, Members, ListsWithin, ListOf;
      assert Continue("") == "";
      for index := 0 to |heads|
        invariant sortData.Keys == all && next == treeOrder + |added|
        invariant Walked(all, children, visited, heads, index, nowVisited, added)
        invariant Appended(data, drawn, sortData, prefixes, added, treeOrder)
        invariant AllDrawn(children, prefixes, heads, "", added)
      {
        WalkStep(all, children, visited, heads, index, nowVisited, added);
        ghost var s1, d1 := sortData, prefixes;
        ghost var first;
        nowVisited, next, first := AppendProcessTree(heads[index], "", "", children, nowVisited, next);
        ForestStep(data, drawn, s1, d1, sortData, prefixes, children, heads, heads[index], added, first, treeOrder);
        added := added + first;
      }
      WalkEnds(all, children, visited, heads, nowVisited, added);
    }

    /** The processes that no tree has reached. */
    method Remaining(visited: set<Pid>) returns (remaining: seq<Pid>)
      ensures Distinct(remaining) && forall p :: p in remaining <==> p in sortData && p !in visited
    {
      var pids := InKeyOrder(sortData.Keys);
      remaining := [];
      for i := 0 to |pids|
        invariant Distinct(remaining)
        invariant forall p :: p in remaining <==> p in pids[..i] && p !in visited
      {
        assert pids[..i + 1] == pids[..i] + [pids[i]] && pids[i] !in pids[..i];
        if pids[i] !in visited {
          DistinctSnoc(remaining, pids[i]);
          remaining := remaining + [pids[i]];
        }
      }
      assert pids[..|pids|] == pids;
    }

    /** Numbers the snapshot depth first and draws the tree. */
    method BuildProcessTree() returns (ghost order: seq<Pid>)
      requires WellKeyed(sortData)
      modifies this`sortData, this`prefixes
      ensures SameButOrder(sortData, old(sortData)) && WellKeyed(sortData)
      ensures ForestOrder(sortData, order) && DrawsForest(sortData, prefixes)
      ensures SiblingsInOrder(sortData) && RootedFirst(sortData)
    {
      prefixes := map[];
      var children, roots := FindFamilies();
      ghost var unsorted := roots;
      roots := SortByDefault(roots);
      assert RootsOf(sortData, roots) by {
        assert forall p :: p in roots <==> p in unsorted;
      }
      children := SortFamilies(children);
      ghost var data := sortData;
      hide ChildrenOf, RootsOf, ListsWithin, SortedLists, Appended, AllDrawn, WellKeyed, SameButOrder, Visit, VisitAll;
      var visited, nextTreeOrder;
      ghost var trees, rest;
      visited, nextTreeOrder, trees := AppendForest(roots, children, {}, 0);
      assert visited == Members(trees);
      ghost var s1, d1 := sortData, prefixes;
      var remaining := Remaining(visited);
      remaining := SortByDefault(remaining);
      assert RemainingOf(data, children, roots, remaining);
      visited, nextTreeOrder, rest := AppendForest(remaining, children, visited, nextTreeOrder);
      order := trees + rest;
      assert order == TreeOrder(data.Keys, children, roots, remaining);
      TreesJoined(data, s1, d1, sortData, prefixes, children, roots, remaining, trees, rest);
      hide TreeOrder, Members, ForestOrder, DrawsForest, RemainingOf;
      TreeBuilt(data, sortData, prefixes, children, roots, remaining);
      SiblingsBuilt(data, sortData, prefixes, children, roots, remaining);
      SameTwice(sortData, data, old(sortData));
    }

    // ---- Descendants ----

    method CollectChildren() returns (children: Children)
      requires WellKeyed(sortData)
      ensures ChildrenOf(sortData, children)
    {
      var pids := InKeyOrder(sortData.Keys);
      children := map[];
      var roots: seq<Pid> := [];
      assert SameButOrder(sortData, sortData);
      for i := 0 to |pids|
        invariant Families(sortData, pids[..i], children, roots)
      {
        var pid := pids[i];
        assert pids[..i + 1] == pids[..i] + [pid] && pid !in pids[..i] && pid in sortData;
        hide Families, ParentOf, ListOf, WellKeyed, SameButOrder, InKeyOrder;
        children, roots := Classify(pid, children, roots, sortData, pids[..i]);
      }
      assert pids[..|pids|] == pids;
      FamiliesAre(sortData, sortData, pids, children, roots);
    }

    method SortByTree(pids: seq<Pid>) returns (sorted: seq<Pid>)
      requires Distinct(pids) && forall p :: p in pids ==> p in sortData
      ensures SameElements(sorted, pids) && InTreeOrder(sortData, sorted) && Distinct(sorted)
    {
      var data := sortData;
      var less := (x: Pid, y: Pid) => TreeLess(data, x, y);
      TreeIsStrict(data, pids);
      sorted := Sort(less, pids);
      forall i, j | 0 <= i < j < |sorted| ensures TreeLess(data, sorted[i], sorted[j]) {
        assert less(sorted[i], sorted[j]);
      }
      TreeIsStrict(data, sorted);
      SortedIsDistinct(less, sorted);
    }

    /** Everything below a process, in the order of the tree. */
    method CollectDescendantProcessIds(root: Pid) returns (descendants: seq<Pid>)
      requires WellKeyed(sortData)
      ensures root == 0 || root !in sortData ==> descendants == []
      ensures root != 0 && root in sortData ==>
        && Distinct(descendants) && Members(descendants) == Subtree(sortData, root) - {root}
        && InTreeOrder(sortData, descendants)
      ensures root != 0 && root in sortData ==>
        forall c :: c != root ==>
          (c in descendants <==> exists p :: (p == root || p in descendants) && ListedUnder(sortData, c, p))
      ensures root != 0 && root in sortData && ForestOrder(sortData, order) && Rooted(sortData, root) ==>
        exists k: nat :: Follows(order, root, descendants, k)
    {
      descendants := [];
      if root == 0 || root !in sortData {
        return;
      }
      var children := CollectChildren();
      var visited, pending := {root}, [root];
      ExplorationStarts(sortData, children, root);
      hide ChildrenOf, Explored, Looked, ParentOf, ListOf, Subtree;
      var pendingIndex := 0;
      while pendingIndex < |pending|
        invariant Explored(sortData, children, root, pending, pendingIndex) && pendingIndex <= |pending|
        invariant pending == [root] + descendants && forall p :: p in visited <==> p in pending
        decreases |sortData.Keys| - pendingIndex
      {
        visited, pending, descendants := Explore(root, children, pendingIndex, visited, pending, descendants);
        ExploredFits(sortData, children, root, pending, pendingIndex);
        pendingIndex := pendingIndex + 1;
      }
      DescendantsFound(sortData, children, root, descendants);
      ghost var found := descendants;
      descendants := SortByTree(descendants);
      assert Members(descendants) == Members(found);
      DescendantsAreListed(sortData, root, descendants);
      hide SameElements, InTreeOrder, Members, Distinct;
      if ForestOrder(sortData, order) && Rooted(sortData, root) {
        DescendantsFollow(sortData, order, root, descendants);
      }
    }

    /** Takes up the children of one process that have not been found yet. */
    method Explore(ghost root: Pid, children: Children, i: nat, visited: set<Pid>, pending: seq<Pid>, descendants: seq<Pid>)
        returns (nowVisited: set<Pid>, nowPending: seq<Pid>, nowDescendants: seq<Pid>)
      requires ChildrenOf(sortData, children) && Explored(sortData, children, root, pending, i) && i < |pending|
      requires pending == [root] + descendants && forall p :: p in visited <==> p in pending
      ensures Explored(sortData, children, root, nowPending, i + 1) && |nowPending| >= |pending|
      ensures nowPending == [root] + nowDescendants && forall p :: p in nowVisited <==> p in nowPending
    {
      nowVisited, nowPending, nowDescendants := visited, pending, descendants;
      var childList := ListOf(children, pending[i]);
      assert Looked(nowPending, childList, 0);
      hide ChildrenOf, Explored, Looked, ParentOf, ListOf;
      for childIndex := 0 to |childList|
        invariant |nowPending| >= |pending| && nowPending[i] == pending[i]
        invariant Explored(sortData, children, root, nowPending, i)
        invariant Looked(nowPending, childList, childIndex)
        invariant nowPending == [root] + nowDescendants && forall p :: p in nowVisited <==> p in nowPending
      {
        var child := childList[childIndex];
        LookedOn(nowPending, childList, childIndex);
        if child !in nowVisited {
          nowVisited := nowVisited + {child};
          ChildFound(sortData, children, root, nowPending, i, child);
          nowDescendants := nowDescendants + [child];
          nowPending := nowPending + [child];
        }
      }
      ChildrenLooked(sortData, children, root, nowPending, i);
    }

    // ---- Bringing the list up to date ----

    /** Writes the texts that differ into the native row and its mirror. */
    method RefreshColumns(native: ListRow, shown: DisplayedProcess, values: Columns)
        returns (nowNative: ListRow, nowShown: DisplayedProcess, writes: nat)
      requires native == Show(shown)
      ensures nowShown == shown.(columns := values) && nowNative == Show(nowShown) && writes <= 3
      ensures writes == 0 <==> shown == nowShown
    {
      hide Decimal;
      nowNative, nowShown, writes := native, shown, 0;
      for column := 0 to 3
        invariant writes <= column && nowNative == Show(nowShown)
        invariant nowShown.pid == shown.pid && nowShown.startTime == shown.startTime
        invariant forall k :: 0 <= k < column ==> nowShown.columns[k] == values[k]
        invariant forall k :: column <= k < 3 ==> nowShown.columns[k] == shown.columns[k]
        invariant writes == 0 <==> forall k :: 0 <= k < column ==> shown.columns[k] == values[k]
      {
        if nowShown.columns[column] != values[column] {
          nowNative := nowNative.(columns := nowNative.columns[column := values[column]]);
          nowShown := nowShown.(columns := nowShown.columns[column := values[column]]);
          writes := writes + 1;
        }
      }
      assert nowShown.columns == values;
    }

    /** The row the list control has after the item, its number and its texts have been set. */
    method NewRow(row: DisplayedProcess) returns (native: ListRow)
      ensures native == Show(row)
    {
      hide Decimal;
      native := ListRow(Decimal(row.pid), 0, ["", "", ""]);
      native := native.(data := row.pid);
      for column := 0 to 3
        invariant native.text == Decimal(row.pid) && native.data == row.pid
        invariant forall k :: 0 <= k < column ==> native.columns[k] == row.columns[k]
      {
        native := native.(columns := native.columns[column := row.columns[column]]);
      }
      assert native.columns == row.columns;
    }

    /** An update is under way. */
    ghost predicate Updating()
      reads this
    {
      UpdateFits(target, lost, prefixes, view.state, list, displayed, pending, applyIndex)
    }

    /** Looks at the next row: deletes it, or brings its texts up to date. */
    method VisitRow() returns (writes: nat)
      requires Updating() && applyIndex < |displayed|
      modifies this`list, this`displayed, this`pending, this`applyIndex
      ensures Updating() && Work() < old(Work()) && writes <= 3
      ensures var at, rows := old(applyIndex), old(displayed);
              if rows[at].pid in old(pending) && old(pending)[rows[at].pid].startTime == rows[at].startTime then
                var row := RowOf(prefixes, view.state, old(pending)[rows[at].pid]);
                displayed == rows[at := row] && (writes == 0 <==> row == rows[at])
              else displayed == rows[..at] + rows[at + 1..] && writes == 1
    {
      assert |list| == |displayed| && list[applyIndex] == Show(displayed[applyIndex]);
      hide Reconciling, Mirrors, Decimal, Show, UpToDate, WellKeyed;
      var row := applyIndex;
      var pid := displayed[row].pid;
      if !Stays(displayed[row], pending) {
        RowDeleted(target, lost, prefixes, view.state, displayed, pending, row);
        RowsMirrored(list, displayed, row, list[row], displayed[row]);
        list := list[..row] + list[row + 1..];
        displayed := displayed[..row] + displayed[row + 1..];
        writes := 1;
      } else {
        var info := pending[pid];
        PendingFits(target, lost, prefixes, view.state, displayed, pending, row, pid);
        var values := [ProcessDisplayName(prefixes, view.state, info), info.startTimeText, info.path];
        var native, shown;
        native, shown, writes := RefreshColumns(list[row], displayed[row], values);
        assert shown == RowOf(prefixes, view.state, info);
        RowKept(target, lost, prefixes, view.state, displayed, pending, row, shown);
        RowsMirrored(list, displayed, row, native, shown);
        OneLess(pending, pid);
        list := list[row := native];
        displayed := displayed[row := shown];
        pending := pending - {pid};
        applyIndex := applyIndex + 1;
      }
    }

    /** Inserts a row for the first pending process, unless the list control refuses it. */
    method InsertNext(works: Pid -> bool) returns (writes: nat)
      requires Updating() && applyIndex >= |displayed| && pending != map[]
      modifies this`list, this`displayed, this`pending, this`applyIndex, this`lost
      ensures Updating() && Work() < old(Work()) && writes <= 5
      ensures var pid := Least(old(pending).Keys);
              displayed == old(displayed) + if works(pid) then [RowOf(prefixes, view.state, old(pending)[pid])] else []
      ensures forall p :: p in lost ==> p in old(lost) || !works(p)
    {
      hide Reconciling, Mirrors, Decimal, Show, UpToDate, WellKeyed, Least;
      var pid := Least(pending.Keys);
      var info := pending[pid];
      OneLess(pending, pid);
      PendingFits(target, lost, prefixes, view.state, displayed, pending, applyIndex, pid);
      if works(pid) {
        var row := RowOf(prefixes, view.state, info);
        RowInserted(target, lost, prefixes, view.state, displayed, pending, row);
        var native := NewRow(row);
        RowsMirrored(list, displayed, applyIndex, native, row);
        list := list + [native];
        displayed := displayed + [row];
      } else {
        RowLost(target, lost, prefixes, view.state, displayed, pending, applyIndex, pid);
        lost := lost + {pid};
      }
      pending := pending - {pid};
      applyIndex := |displayed|;
      writes := 5;
    }

    /** Sorts the native list and the mirror, each on its own, unless they are sorted already. */
    method SortDisplayedProcesses(works: bool)
      requires WellKeyed(sortData) && Sortable(sortData, displayed) && Mirrors(list, displayed)
      modifies this`list, this`displayed
      ensures Mirrors(list, displayed) && SameElements(displayed, old(displayed)) && Distinct(displayed)
      ensures InProcessOrder(lower, sortData, view, displayed) || (!works && displayed == old(displayed) && list == old(list))
    {
      var less, nativeLess := RowLess(lower, sortData, view), NativeLess(lower, sortData, view);
      MirrorsDistinct(list, displayed);
      MirrorsAreShown(list, displayed);
      RowsAreStrict(lower, sortData, view, displayed);
      NativeIsStrict(lower, sortData, view, displayed, list);
      hide Mirrors, StrictOrder, Distinct, Sortable, WellKeyed, SameElements, Before;
      var sorted := IsSorted(less, displayed);
      if !sorted && works {
        ghost var wasList, was := list, displayed;
        var nowList := Sort(nativeLess, list);
        var now := Sort(less, displayed);
        BothSorted(lower, sortData, view, wasList, was, nowList, now);
        SortIsDistinct(less, was, now);
        list, displayed := nowList, now;
        sorted := true;
      } else {
        SameAsItself(displayed);
      }
      if sorted {
        SortedIsInOrder(lower, sortData, view, old(displayed), displayed);
      }
    }

    /** Looks at rows and inserts rows until 64 texts have been written or the clock, read before each turn, says stop. */
    method RunBatch(insertWorks: Pid -> bool, inTime: nat -> bool) returns (turns: nat, processed: nat)
      requires Updating()
      modifies this`list, this`displayed, this`pending, this`applyIndex, this`lost
      ensures Updating() && processed <= 68 && Work() + turns <= old(Work())
      ensures turns == 0 && inTime(0) ==> applyIndex >= |displayed| && pending == map[]
      ensures forall p :: p in lost ==> p in old(lost) || !insertWorks(p)
    {
      turns, processed := 0, 0;
      hide Updating, Work;
      while processed < 64 && inTime(turns)
        invariant Updating() && processed <= 68 && Work() + turns <= old(Work())
        invariant turns == 0 ==> processed == 0
        invariant forall p :: p in lost ==> p in old(lost) || !insertWorks(p)
        decreases Work()
      {
        var writes;
        if applyIndex < |displayed| {
          writes := VisitRow();
        } else if pending != map[] {
          writes := InsertNext(insertWorks);
        } else {
          break;
        }
        turns, processed := turns + 1, processed + writes;
      }
    }

    /** One slice of an update, and the end of the update once all its work is done. */
    method ApplyProcessBatch(insertWorks: Pid -> bool, sortWorks: bool, inTime: nat -> bool) returns (turns: nat, processed: nat)
      requires Valid() && applying
      modifies this`list, this`displayed, this`pending, this`applyIndex, this`lost, this`applying
      ensures Valid() && processed <= 68
      ensures applying ==> 0 < Work() && Work() + turns <= old(Work()) && (inTime(0) ==> turns > 0)
      ensures !applying && sortWorks ==> InProcessOrder(lower, sortData, view, displayed)
      ensures forall p :: p in lost ==> p in old(lost) || !insertWorks(p)
    {
      UpdateUnderWay(sortData, order, target, lost, prefixes, view.state, list, displayed, pending, applyIndex);
      hide SnapshotFits, RowsAgree, RowsFit, UpdateFits, PartOf, WellKeyed, InProcessOrder, Installed, Mirrors, Work;
      turns, processed := RunBatch(insertWorks, inTime);
      if applyIndex < |displayed| || pending != map[] {
        UpdateFitsRows(target, lost, prefixes, view.state, list, displayed, pending, applyIndex);
        return;
      }
      FinishUpdate(sortWorks);
      InstalledFits(target, lost, prefixes, view.state, list, displayed, applyIndex);
    }

    /** Sorts the rows of a complete update. */
    method FinishUpdate(sortWorks: bool)
      requires Updating() && applyIndex >= |displayed| && pending == map[]
      requires WellKeyed(sortData) && PartOf(target, sortData)
      modifies this`list, this`displayed, this`applying
      ensures Mirrors(list, displayed) && Installed(target, lost, prefixes, view.state, displayed) && !applying
      ensures sortWorks ==> InProcessOrder(lower, sortData, view, displayed)
    {
      ghost var rows := displayed;
      UpdateEnds(target, lost, prefixes, view.state, displayed, pending, applyIndex);
      InstalledIsSortable(target, lost, prefixes, view.state, displayed, sortData);
      hide Installed, Sortable, Mirrors, WellKeyed, InProcessOrder;
      SortDisplayedProcesses(sortWorks);
      SortedStaysInstalled(target, lost, prefixes, view.state, rows, displayed);
      applying := false;
    }

    /** The part of the snapshot that passes the filter. */
    method FilteredRows(hooked: set<(Pid, nat)>) returns (rows: Snapshot)
      ensures rows == Filtered(lower, filter, hooked, sortData) && PartOf(rows, sortData)
    {
      var pids := InKeyOrder(sortData.Keys);
      rows := map[];
      hide Passes, InKeyOrder;
      for i := 0 to |pids|
        invariant FilteredSoFar(lower, filter, hooked, sortData, pids[..i], rows)
      {
        var info := sortData[pids[i]];
        assert pids[..i + 1] == pids[..i] + [pids[i]];
        FilterStep(lower, filter, hooked, sortData, pids[..i], rows, pids[i]);
        hide FilteredSoFar;
        if Passes(lower, filter, hooked, info) {
          rows := rows[pids[i] := info];
        }
      }
      assert pids[..|pids|] == pids;
      FilterDone(lower, filter, hooked, sortData, pids, rows);
    }

    /** Starts to bring the rows up to date with the filtered snapshot, whatever they show now. */
    method BeginFilteredUpdate(active: bool, hooked: set<(Pid, nat)>, insertWorks: Pid -> bool, sortWorks: bool,
        inTime: nat -> bool)
      requires SnapshotFits(sortData, prefixes, order) && RowsAgree(list, displayed) &&
        (active || (PartOf(target, sortData) && RowsFit(target, lost, prefixes, view.state, displayed, pending, applyIndex, applying)))
      modifies this`list, this`displayed, this`pending, this`applyIndex, this`lost, this`applying, this`target
      ensures Valid()
      ensures active ==> target == Filtered(lower, filter, hooked, sortData) && forall p :: p in lost ==> !insertWorks(p)
      ensures active && !applying && sortWorks ==> InProcessOrder(lower, sortData, view, displayed)
      ensures !active ==> list == old(list) && displayed == old(displayed) && target == old(target) && applying == old(applying)
    {
      hide SnapshotFits, RowsAgree, RowsFit, PartOf, InProcessOrder, Filtered;
      if active {
        var rows := FilteredRows(hooked);
        RestartUpdate(rows);
        var turns, processed := ApplyProcessBatch(insertWorks, sortWorks, inTime);
      }
    }

    /** Takes over a changed filter, also in the middle of an update. */
    method OnFilterTimer(blocked: bool, text: string, hookedOnly: bool, active: bool, hooked: set<(Pid, nat)>,
        insertWorks: Pid -> bool, sortWorks: bool, inTime: nat -> bool)
      requires Valid()
      modifies this
      ensures Valid() && sortData == old(sortData) && view == old(view)
      ensures blocked ==> unchanged(this)
      ensures !blocked && active ==>
                target == Filtered(lower, Filter(Lower(lower, Trimmed(space, text)), hookedOnly), hooked, sortData)
      ensures !blocked && active && !applying && sortWorks ==> InProcessOrder(lower, sortData, view, displayed)
    {
      hide SnapshotFits, RowsAgree, RowsFit, PartOf, Filtered, InProcessOrder, Trimmed;
      if !blocked {
        filter := Filter(Lower(lower, Trimmed(space, text)), hookedOnly);
        BeginFilteredUpdate(active, hooked, insertWorks, sortWorks, inTime);
      }
    }

    method RestartUpdate(rows: Snapshot)
      requires SnapshotFits(sortData, prefixes, order) && RowsAgree(list, displayed) && PartOf(rows, sortData)
      modifies this`pending, this`applyIndex, this`lost, this`applying, this`target
      ensures Valid() && applying && target == rows && lost == {}
    {
      UpdateMayStart(rows, prefixes, view.state, displayed);
      hide SnapshotFits, RowsAgree, RowsFit, PartOf;
      pending := rows;
      target, lost := rows, {};
      applying, applyIndex := true, 0;
    }

    /** A partly installed snapshot must not stay on display. */
    method ClearPage()
      modifies this`list, this`displayed, this`sortData, this`prefixes, this`pending, this`applying,
        this`order, this`target, this`lost
      ensures Valid() && !applying && list == [] && displayed == [] && sortData == map[]
    {
      EmptyPage(view.state, applyIndex);
      list, displayed, sortData, prefixes := [], [], map[], map[];
      pending, applying := map[], false;
      order, target, lost := [], map[], {};
    }

    /** Gives up an update. */
    method CancelProcessRefresh()
      requires Valid()
      modifies this`list, this`displayed, this`sortData, this`prefixes, this`pending, this`applying,
        this`order, this`target, this`lost
      ensures Valid() && !applying
      ensures old(applying) ==> list == [] && displayed == [] && sortData == map[]
      ensures !old(applying) ==> list == old(list) && displayed == old(displayed) && sortData == old(sortData) &&
                                 target == old(target) && lost == old(lost)
    {
      hide SnapshotFits, RowsAgree, PartOf, Reconciling, Installed;
      if applying {
        ClearPage();
      }
      pending := map[];
      applying := false;
    }

    /** Takes over a new snapshot. */
    method InstallSnapshot(rows: seq<ProcessInfo>)
      modifies this`sortData, this`prefixes, this`order
      ensures SnapshotFits(sortData, prefixes, order) && SameButOrder(sortData, SnapshotOf(rows))
    {
      sortData := map[];
      for i := 0 to |rows|
        invariant sortData == SnapshotOf(rows[..i])
      {
        assert rows[..i + 1][..i] == rows[..i];
        sortData := sortData[rows[i].pid := rows[i]];
      }
      assert rows[..|rows|] == rows;
      hide ForestOrder, DrawsForest, WellKeyed;
      order := BuildProcessTree();
    }

    /**
     What the timer does: give up, wait, go on with an update or start one with a new snapshot. An
     update that goes on has less work left by at least its turns, and does at least one turn if the
     clock is in time when it is first read; it ends after so many such calls at most.
     */
    method PollProcessList(active: bool, blocked: bool, result: Option<seq<ProcessInfo>>, hooked: set<(Pid, nat)>,
        insertWorks: Pid -> bool, sortWorks: bool, inTime: nat -> bool) returns (turns: nat)
      requires Valid()
      modifies this
      ensures Valid() && view == old(view) && filter == old(filter)
      ensures !active ==> !applying && (old(applying) ==> list == [] && displayed == [] && sortData == map[])
      ensures !active && !old(applying) ==> list == old(list) && displayed == old(displayed) && sortData == old(sortData)
      ensures active && (blocked || (!old(applying) && result.None?)) ==> unchanged(this)
      ensures active && !blocked && old(applying) ==> sortData == old(sortData) && prefixes == old(prefixes) && target == old(target)
      ensures active && !blocked && old(applying) && applying ==> 0 < Work() && Work() + turns <= old(Work()) && (inTime(0) ==> turns > 0)
      ensures active && !blocked && old(applying) ==> forall p :: p in lost ==> p in old(lost) || !insertWorks(p)
      ensures active && !blocked && !old(applying) && result.Some? ==>
                target == Filtered(lower, filter, hooked, sortData) && SameButOrder(sortData, SnapshotOf(result.value))
      ensures active && !blocked && !applying && (old(applying) || result.Some?) && sortWorks ==>
                InProcessOrder(lower, sortData, view, displayed)
    {
      turns := 0;
      hide SnapshotFits, RowsFit, RowsAgree, PartOf, Filtered, SnapshotOf, SameButOrder, InProcessOrder, Work;
      if !active {
        CancelProcessRefresh();
      } else if blocked {
      } else if applying {
        var processed;
        turns, processed := ApplyProcessBatch(insertWorks, sortWorks, inTime);
      } else if result.Some? {
        InstallSnapshot(result.value);
        BeginFilteredUpdate(active, hooked, insertWorks, sortWorks, inTime);
      }
    }

    // ---- Sorting by a column ----

    /** Gives every row the name that goes with the sorting: with the lines of the tree, or without. */
    method UpdateProcessNameDisplay(ghost before: SortState)
      requires WellKeyed(sortData) && PartOf(target, sortData) && Mirrors(list, displayed)
      requires Installed(target, lost, prefixes, before, displayed)
      modifies this`list, this`displayed
      ensures Mirrors(list, displayed) && Installed(target, lost, prefixes, view.state, displayed)
      ensures Pids(displayed) == Pids(old(displayed))
    {
      ghost var rows := displayed;
      InstalledIsTarget(target, lost, prefixes, before, rows);
      assert forall k :: 0 <= k < |rows| ==> RowKnown(target, sortData, rows[k]) by {
        assert forall k :: 0 <= k < |rows| ==> rows[k] in rows;
      }
      hide Installed, WellKeyed, PartOf, RowOf, ProcessDisplayName, Decimal, Renamed, RowKnown;
      for item := 0 to |displayed|
        invariant |displayed| == |rows| && Mirrors(list, displayed)
        invariant forall k :: 0 <= k < item ==> Renamed(target, prefixes, view.state, rows[k], displayed[k])
        invariant forall k :: item <= k < |rows| ==> displayed[k] == rows[k]
      {
        var shown := displayed[item];
        NameIsRenamed(target, sortData, prefixes, view.state, shown);
        if shown.pid in sortData {
          var displayName := ProcessDisplayName(prefixes, view.state, sortData[shown.pid]);
          var native;
          native, shown := Rename(list[item], shown, displayName);
          RowsMirrored(list, displayed, item, native, shown);
          hide Mirrors, Show;
          list := list[item := native];
          displayed := displayed[item := shown];
        }
      }
      RenamedStaysInstalled(target, lost, prefixes, before, view.state, rows, displayed);
      RenamedKeepsPids(target, prefixes, view.state, rows, displayed);
    }

    method Rename(native: ListRow, shown: DisplayedProcess, displayName: string)
        returns (nowNative: ListRow, nowShown: DisplayedProcess)
      requires native == Show(shown)
      ensures nowShown == shown.(columns := shown.columns[0 := displayName]) && nowNative == Show(nowShown)
    {
      hide Decimal;
      nowNative, nowShown := native, shown;
      if shown.columns[0] != displayName {
        nowNative := native.(columns := native.columns[0 := displayName]);
        nowShown := shown.(columns := shown.columns[0 := displayName]);
      }
      assert nowShown.columns == shown.columns[0 := displayName];
    }

    method ApplyProcessSort(sortWorks: bool, ghost before: SortState)
      requires WellKeyed(sortData) && PartOf(target, sortData) && Mirrors(list, displayed)
      requires Installed(target, lost, prefixes, before, displayed)
      modifies this`list, this`displayed
      ensures Mirrors(list, displayed) && Installed(target, lost, prefixes, view.state, displayed)
      ensures sortWorks ==> InProcessOrder(lower, sortData, view, displayed)
    {
      ghost var rows := displayed;
      InstalledIsSortable(target, lost, prefixes, before, displayed, sortData);
      hide Installed, Sortable, Mirrors, WellKeyed, PartOf, InProcessOrder;
      SortDisplayedProcesses(sortWorks);
      SortedStaysInstalled(target, lost, prefixes, before, rows, displayed);
      ghost var sorted := displayed;
      UpdateProcessNameDisplay(before);
      if sortWorks {
        SamePidsSameOrder(lower, sortData, view, sorted, displayed);
      }
    }

    /** A click on a column header; while an update is under way it is ignored. */
    method OnLvnColumnClickProcessList(subItem: int, sortWorks: bool)
      requires Valid()
      modifies this`list, this`displayed, this`view
      ensures Valid()
      ensures applying || subItem < 0 || subItem > 3 ==>
                view == old(view) && list == old(list) && displayed == old(displayed)
      ensures !applying && 0 <= subItem <= 3 ==>
                view == if old(view.column) != subItem || old(view.state) == Unsorted then Ordering(subItem, Ascending)
                        else if old(view.state) == Ascending then Ordering(subItem, Descending) else Ordering(-1, Unsorted)
      ensures !applying && 0 <= subItem <= 3 && sortWorks ==> InProcessOrder(lower, sortData, view, displayed)
      ensures !applying && 0 <= subItem <= 3 && sortWorks && view.state == Unsorted ==> FollowsTree(order, displayed)
    {
      if applying || subItem < 0 || subItem > 3 {
        return;
      }
      SettledPage(sortData, order, target, lost, prefixes, view.state, list, displayed, applyIndex);
      hide SnapshotFits, RowsAgree, RowsFit, PartOf, WellKeyed, InProcessOrder, Mirrors, Installed;
      ghost var before := view.state;
      if view.column != subItem || view.state == Unsorted {
        view := Ordering(subItem, Ascending);
      } else if view.state == Ascending {
        view := view.(state := Descending);
      } else {
        view := Ordering(-1, Unsorted);
      }
      ApplyProcessSort(sortWorks, before);
      InstalledFits(target, lost, prefixes, view.state, list, displayed, applyIndex);
      if sortWorks && view.state == Unsorted {
        UnsortedRowsFollow(lower, sortData, prefixes, order, view, displayed);
      }
    }
  }
}
