/** Siblings are numbered in the order in which the system lists them. */
module ProcessSiblings {
  import opened Text
  import opened ProcessForest
  import opened ProcessOrder
  import opened ProcessTree

  /** The list that a process is in: the children of its parent, or the roots. */
  function Siblings(children: Children, roots: seq<Pid>, parent: Option<Pid>): seq<Pid> {
    match parent
    case None => roots
    case Some(q) => ListOf(children, q)
  }

  ghost predicate ComesBefore(list: seq<Pid>, x: Pid, y: Pid) {
    exists a, b :: 0 <= a < b < |list| && list[a] == x && list[b] == y
  }

  /** Processes with the same parent, or without one, keep the order of their list. */
  ghost predicate KeepsLists(data: Snapshot, children: Children, roots: seq<Pid>, s: seq<Pid>) {
    forall i, j :: 0 <= i < j < |s| ==> InListOrder(data, children, roots, s[i], s[j])
  }

  ghost predicate InListOrder(data: Snapshot, children: Children, roots: seq<Pid>, x: Pid, y: Pid) {
    x in data && y in data && (ParentOf(data, x) == ParentOf(data, y) ==> ComesBefore(Siblings(children, roots, ParentOf(data, x)), x, y))
  }

  lemma VisitedNow(all: set<Pid>, children: Children, visited: set<Pid>, p: Pid, x: Pid)
    requires x in Visit(all, children, visited, p)
    ensures p in all && p !in visited
  {
  }

  /** Whatever a visit adds below its process has its parent among what it adds. */
  lemma {:induction false} ParentAdded(data: Snapshot, children: Children, visited: set<Pid>, p: Pid, x: Pid)
    requires ChildrenOf(data, children) && x in Visit(data.Keys, children, visited, p) && x != p
    ensures x in data && ParentOf(data, x).Some? && ParentOf(data, x).value in Visit(data.Keys, children, visited, p)
    decreases |data.Keys - visited|, 0
  {
    VisitedNow(data.Keys, children, visited, p, x);
    hide Visit, VisitAll, ParentOf, ListOf, ChildrenOf, Members;
    var list := ListOf(children, p);
    var below := VisitAll(data.Keys, children, visited + {p}, list);
    VisitUnfolds(data.Keys, children, visited, p);
    assert x in [p] + below;
    ParentAddedAll(data, children, visited + {p}, list, x);
    ListedChildren(data, children, p);
  }

  lemma {:induction false} ParentAddedAll(data: Snapshot, children: Children, visited: set<Pid>, ps: seq<Pid>, x: Pid)
    requires ChildrenOf(data, children) && x in VisitAll(data.Keys, children, visited, ps)
    ensures x in data && (x in ps || (ParentOf(data, x).Some? && ParentOf(data, x).value in VisitAll(data.Keys, children, visited, ps)))
    decreases |data.Keys - visited|, |ps| + 1
  {
    var first := Visit(data.Keys, children, visited, ps[0]);
    Shrinks(data.Keys, visited, Members(first));
    if x !in first {
      ParentAddedAll(data, children, visited + Members(first), ps[1..], x);
    } else if x != ps[0] {
      ParentAdded(data, children, visited, ps[0], x);
    }
  }

  /** The processes are the last ones of a list whose parent, if any, has been visited. */
  ghost predicate RestOfList(data: Snapshot, children: Children, roots: seq<Pid>, visited: set<Pid>, ps: seq<Pid>, parent: Option<Pid>) {
    && (parent.Some? ==> parent.value in visited)
    && (exists k :: 0 <= k <= |Siblings(children, roots, parent)| && ps == Siblings(children, roots, parent)[k..])
    && forall p :: p in ps ==> p in data && ParentOf(data, p) == parent
  }

  lemma KeepsConcat(data: Snapshot, children: Children, roots: seq<Pid>, a: seq<Pid>, b: seq<Pid>)
    requires KeepsLists(data, children, roots, a) && KeepsLists(data, children, roots, b)
    requires forall x, y :: x in a && y in b ==> InListOrder(data, children, roots, x, y)
    ensures KeepsLists(data, children, roots, a + b)
  {
    hide InListOrder;
    var s := a + b;
    forall i, j | 0 <= i < j < |s| ensures InListOrder(data, children, roots, s[i], s[j]) {
      if i < |a| <= j {
        assert s[i] in a && s[j] in b;
      }
    }
  }

  lemma FirstOfRest(data: Snapshot, children: Children, roots: seq<Pid>, visited: set<Pid>, ps: seq<Pid>, parent: Option<Pid>, y: Pid)
    requires RestOfList(data, children, roots, visited, ps, parent) && ps != [] && y in ps[1..]
    ensures ComesBefore(Siblings(children, roots, parent), ps[0], y)
  {
    hide ParentOf, Siblings;
    var list := Siblings(children, roots, parent);
    var k :| 0 <= k <= |list| && ps == list[k..];
    SuffixOrder(list, k, y);
  }

  lemma SuffixOrder(list: seq<Pid>, k: nat, y: Pid)
    requires k < |list| && y in list[k..][1..]
    ensures ComesBefore(list, list[k], y)
  {
    assert list[k..][1..] == list[k + 1..];
    var j :| 0 <= j < |list[k + 1..]| && list[k + 1..][j] == y;
    assert list[k + 1 + j] == y;
  }

  lemma RestGoesOn(data: Snapshot, children: Children, roots: seq<Pid>, visited: set<Pid>, more: set<Pid>, ps: seq<Pid>, parent: Option<Pid>)
    requires RestOfList(data, children, roots, visited, ps, parent) && ps != []
    ensures RestOfList(data, children, roots, visited + more, ps[1..], parent)
  {
    var list := Siblings(children, roots, parent);
    var k :| 0 <= k <= |list| && ps == list[k..];
    assert ps[1..] == list[k + 1..];
  }

  lemma {:induction false} VisitKeepsLists(data: Snapshot, children: Children, roots: seq<Pid>, visited: set<Pid>, p: Pid)
    requires ChildrenOf(data, children) && p in data && ParentIn(data, visited, p)
    ensures KeepsLists(data, children, roots, Visit(data.Keys, children, visited, p))
    decreases |data.Keys - visited|, 0
  {
    if p !in visited {
      var list := ListOf(children, p);
      var below := VisitAll(data.Keys, children, visited + {p}, list);
      VisitUnfolds(data.Keys, children, visited, p);
      WholeList(data, children, roots, visited + {p}, p);
      hide Visit, VisitAll, RestOfList, KeepsLists, InListOrder, ParentOf, ListOf, ParentIn, ChildrenOf;
      VisitAllKeepsLists(data, children, roots, visited + {p}, list, Some(p));
      forall y | y in below ensures InListOrder(data, children, roots, p, y) {
        NoSiblingBelow(data, children, roots, visited, p, y);
      }
      KeepsOne(data, children, roots, p);
      KeepsConcat(data, children, roots, [p], below);
    }
  }

  lemma WholeList(data: Snapshot, children: Children, roots: seq<Pid>, visited: set<Pid>, p: Pid)
    requires ChildrenOf(data, children) && p in visited
    ensures RestOfList(data, children, roots, visited, ListOf(children, p), Some(p))
  {
    assert Siblings(children, roots, Some(p))[0..] == ListOf(children, p);
  }

  /** Below a process whose parent has been visited there is no sibling of it. */
  lemma NoSiblingBelow(data: Snapshot, children: Children, roots: seq<Pid>, visited: set<Pid>, p: Pid, y: Pid)
    requires ChildrenOf(data, children) && p in data && p !in visited && ParentIn(data, visited, p)
    requires y in VisitAll(data.Keys, children, visited + {p}, ListOf(children, p))
    ensures InListOrder(data, children, roots, p, y)
  {
    ParentAddedAll(data, children, visited + {p}, ListOf(children, p), y);
    hide Visit, VisitAll, ParentOf, ListOf, ComesBefore;
  }

  lemma KeepsOne(data: Snapshot, children: Children, roots: seq<Pid>, p: Pid)
    ensures KeepsLists(data, children, roots, [p])
  {
  }

  /** Between the first tree of a list and the others no two processes have the same parent, but for the listed ones. */
  lemma Across(data: Snapshot, children: Children, roots: seq<Pid>, visited: set<Pid>, ps: seq<Pid>, parent: Option<Pid>, x: Pid, y: Pid)
    requires ChildrenOf(data, children) && RestOfList(data, children, roots, visited, ps, parent) && ps != []
    requires var first := Visit(data.Keys, children, visited, ps[0]);
             x in first && y in VisitAll(data.Keys, children, visited + Members(first), ps[1..])
    ensures InListOrder(data, children, roots, x, y)
  {
    var first := Visit(data.Keys, children, visited, ps[0]);
    ParentAddedAll(data, children, visited + Members(first), ps[1..], y);
    VisitClosed(data, children, visited, ps[0]);
    assert ps[0] in ps;
    hide Visit, VisitAll, ParentOf, ComesBefore;
    if x != ps[0] {
      ParentAdded(data, children, visited, ps[0], x);
    } else if y in ps[1..] {
      FirstOfRest(data, children, roots, visited, ps, parent, y);
    }
  }

  lemma {:induction false} VisitAllKeepsLists(data: Snapshot, children: Children, roots: seq<Pid>, visited: set<Pid>, ps: seq<Pid>,
      parent: Option<Pid>)
    requires ChildrenOf(data, children) && RestOfList(data, children, roots, visited, ps, parent)
    ensures KeepsLists(data, children, roots, VisitAll(data.Keys, children, visited, ps))
    decreases |data.Keys - visited|, |ps| + 1
  {
    if ps != [] {
      var first := Visit(data.Keys, children, visited, ps[0]);
      var rest := VisitAll(data.Keys, children, visited + Members(first), ps[1..]);
      Shrinks(data.Keys, visited, Members(first));
      VisitKeepsLists(data, children, roots, visited, ps[0]);
      RestGoesOn(data, children, roots, visited, Members(first), ps, parent);
      VisitAllKeepsLists(data, children, roots, visited + Members(first), ps[1..], parent);
      forall x, y | x in first && y in rest ensures InListOrder(data, children, roots, x, y) {
        Across(data, children, roots, visited, ps, parent, x, y);
      }
      KeepsConcat(data, children, roots, first, rest);
    }
  }

  // ---- What the numbers say ----

  /** Two siblings, or two processes without a parent, of which p is listed first; their ancestors form no cycle. */
  ghost predicate ListedFirst(data: Snapshot, p: Pid, q: Pid) {
    && p in data && q in data && Rooted(data, p) && Rooted(data, q) && ParentOf(data, p) == ParentOf(data, q)
    && (data[p].defaultOrder < data[q].defaultOrder || (data[p].defaultOrder == data[q].defaultOrder && p < q))
  }

  /** Siblings are numbered as they are listed. */
  ghost predicate SiblingsInOrder(data: Snapshot) {
    forall p, q :: ListedFirst(data, p, q) ==> data[p].treeOrder < data[q].treeOrder
  }

  /** What only hangs together in cycles comes after everything else. */
  ghost predicate RootedFirst(data: Snapshot) {
    forall p, q :: p in data && q in data && Rooted(data, p) && !Rooted(data, q) ==> data[p].treeOrder < data[q].treeOrder
  }

  lemma TreesAreRooted(data: Snapshot, children: Children, roots: seq<Pid>, x: Pid)
    requires ChildrenOf(data, children) && RootsOf(data, roots) && x in VisitAll(data.Keys, children, {}, roots)
    ensures x in data && Rooted(data, x)
  {
    var root := VisitAllDescends(data, children, {}, roots, x);
    var n: nat :| Up(data, x, n) == Some(root);
    assert Up(data, x, n).Some? && ParentOf(data, Up(data, x, n).value) == None;
  }

  lemma RootedNumbered(data: Snapshot, children: Children, roots: seq<Pid>, remaining: seq<Pid>)
    requires WellKeyed(data) && ChildrenOf(data, children) && RootsOf(data, roots)
    requires var order := TreeOrder(data.Keys, children, roots, remaining);
             Numbered(data, order, 0) && Members(order) == data.Keys
    ensures RootedFirst(data)
  {
    var trees, order := VisitAll(data.Keys, children, {}, roots), TreeOrder(data.Keys, children, roots, remaining);
    forall p, q | p in data && q in data && Rooted(data, p) && !Rooted(data, q) ensures data[p].treeOrder < data[q].treeOrder {
      var i := PlaceOf(data, children, roots, remaining, p);
      assert q in Members(order);
      var j :| 0 <= j < |order| && order[j] == q;
      hide Rooted, Visit, VisitAll;
      if j < |trees| {
        TreesAreRooted(data, children, roots, q);
      }
    }
  }

  lemma SortedComesBefore(data: Snapshot, list: seq<Pid>, x: Pid, y: Pid)
    requires InDefaultOrder(data, list) && ComesBefore(list, x, y) && x in data && y in data
    ensures !(data[y].defaultOrder < data[x].defaultOrder || (data[y].defaultOrder == data[x].defaultOrder && y < x))
  {
    var a, b :| 0 <= a < b < |list| && list[a] == x && list[b] == y;
    assert DefaultLess(data, list[a], list[b]);
  }

  lemma TreesKeepLists(data: Snapshot, children: Children, roots: seq<Pid>)
    requires ChildrenOf(data, children) && RootsOf(data, roots)
    ensures KeepsLists(data, children, roots, VisitAll(data.Keys, children, {}, roots))
  {
    assert Siblings(children, roots, None)[0..] == roots;
    assert RestOfList(data, children, roots, {}, roots, None);
    VisitAllKeepsLists(data, children, roots, {}, roots, None);
  }

  lemma PlaceOf(data: Snapshot, children: Children, roots: seq<Pid>, remaining: seq<Pid>, p: Pid) returns (i: nat)
    requires ChildrenOf(data, children) && RootsOf(data, roots) && p in data && Rooted(data, p)
    requires Numbered(data, TreeOrder(data.Keys, children, roots, remaining), 0)
    ensures var trees := VisitAll(data.Keys, children, {}, roots);
            i < |trees| && trees[i] == p && data[p].treeOrder == i
  {
    var n: nat :| Up(data, p, n).Some? && ParentOf(data, Up(data, p, n).value) == None;
    RootedVisited(data, children, roots, p, n);
    var trees := VisitAll(data.Keys, children, {}, roots);
    hide Up, ParentOf, Visit, VisitAll;
    i :| 0 <= i < |trees| && trees[i] == p;
    assert TreeOrder(data.Keys, children, roots, remaining)[i] == p;
  }

  lemma SiblingsNumbered(data: Snapshot, children: Children, roots: seq<Pid>, remaining: seq<Pid>)
    requires WellKeyed(data) && ChildrenOf(data, children) && RootsOf(data, roots)
    requires SortedLists(data, children) && InDefaultOrder(data, roots)
    requires Numbered(data, TreeOrder(data.Keys, children, roots, remaining), 0)
    ensures SiblingsInOrder(data)
  {
    TreesKeepLists(data, children, roots);
    hide VisitAll, Rooted, KeepsLists, TreeOrder, SortedLists, InDefaultOrder, ParentOf, ChildrenOf, RootsOf, WellKeyed, Numbered;
    forall p, q | ListedFirst(data, p, q) ensures data[p].treeOrder < data[q].treeOrder {
      FirstIsBefore(data, children, roots, remaining, p, q);
    }
  }

  lemma FirstIsBefore(data: Snapshot, children: Children, roots: seq<Pid>, remaining: seq<Pid>, p: Pid, q: Pid)
    requires ChildrenOf(data, children) && RootsOf(data, roots) && SortedLists(data, children) && InDefaultOrder(data, roots)
    requires Numbered(data, TreeOrder(data.Keys, children, roots, remaining), 0)
    requires KeepsLists(data, children, roots, VisitAll(data.Keys, children, {}, roots))
    requires ListedFirst(data, p, q)
    ensures data[p].treeOrder < data[q].treeOrder
  {
    hide VisitAll, Rooted, KeepsLists, TreeOrder, SortedLists, InDefaultOrder, ParentOf, ChildrenOf, RootsOf, Numbered;
    var trees := VisitAll(data.Keys, children, {}, roots);
    var i := PlaceOf(data, children, roots, remaining, p);
    var j := PlaceOf(data, children, roots, remaining, q);
    if j < i {
      NotTheOtherWay(data, children, roots, trees, j, i);
    }
  }

  lemma NotTheOtherWay(data: Snapshot, children: Children, roots: seq<Pid>, trees: seq<Pid>, j: nat, i: nat)
    requires SortedLists(data, children) && InDefaultOrder(data, roots) && KeepsLists(data, children, roots, trees)
    requires j < i < |trees|
    ensures !ListedFirst(data, trees[i], trees[j])
  {
    assert InListOrder(data, children, roots, trees[j], trees[i]);
    hide Rooted, ParentOf, KeepsLists, ComesBefore;
    if ListedFirst(data, trees[i], trees[j]) {
      var parent := ParentOf(data, trees[j]);
      var list := Siblings(children, roots, parent);
      assert parent.Some? ==> InDefaultOrder(data, ListOf(children, parent.value));
      SortedComesBefore(data, list, trees[j], trees[i]);
    }
  }

  // ---- What the prefixes draw ----

  /** Every other process listed under q is listed before c. */
  ghost predicate LastListed(data: Snapshot, q: Pid, c: Pid)
    requires c in data
  {
    forall d: Pid :: ListedUnder(data, d, q) && d != c ==>
      data[d].defaultOrder < data[c].defaultOrder || (data[d].defaultOrder == data[c].defaultOrder && d < c)
  }

  lemma LastChildIsListed(data: Snapshot, q: Pid, c: Pid)
    requires c in data
    ensures LastChild(data, q, c) <==> LastListed(data, q, c)
  {
    ParentIsListed(data);
    hide ParentOf;
    assert forall d :: ListedUnder(data, d, q) ==> d in data;
    hide ListedUnder;
  }

  /** The n-th group of three characters of a prefix. */
  function Group(prefix: string, i: nat): string
    requires 3 * i + 3 <= |prefix|
  {
    prefix[3 * i..3 * i + 3]
  }

  lemma GroupsGoOn(prefix: string, last: bool, now: string, i: nat)
    requires |prefix| % 3 == 0 && now == Continue(prefix) + Branch(last)
    requires 3 * i + 3 <= |now|
    ensures |now| == |prefix| + 3
    ensures 3 * i == |prefix| ==> Group(now, i) == if last then "└─ " else "├─ "
    ensures 3 * i + 3 == |prefix| ==> Group(now, i) == if Group(prefix, i) == "└─ " then "   " else "│  "
    ensures 3 * i + 3 < |prefix| ==> Group(now, i) == Group(prefix, i)
  {
  }

  /**
   Before a process stands a branch, which ends below its parent if no sibling follows, and before that
   for every ancestor but the root a gap if no sibling of it follows, and otherwise a line.
   */
  lemma {:induction false} PrefixIsDrawn(data: Snapshot, prefixes: Prefixes, p: Pid, n: nat, k: nat)
    requires DrawsForest(data, prefixes) && p in data && k < n
    requires Up(data, p, n).Some? && ParentOf(data, Up(data, p, n).value) == None
    ensures p in prefixes && |prefixes[p]| == 3 * n && Up(data, p, k).Some? && Up(data, p, k + 1).Some?
    ensures var child, parent := Up(data, p, k).value, Up(data, p, k + 1).value;
            Group(prefixes[p], n - 1 - k) ==
              if k == 0 then if LastListed(data, parent, child) then "└─ " else "├─ "
              else if LastListed(data, parent, child) then "   " else "│  "
    decreases n
  {
    UpStep(data, p, n, k);
    var q := ParentOf(data, p).value;
    PrefixStep(data, prefixes, p, n);
    hide *;
    PrefixFollowsDepth(data, prefixes, p, n);
    PrefixFollowsDepth(data, prefixes, q, n - 1);
    GroupsGoOn(prefixes[q], LastChild(data, q, p), prefixes[p], n - 1 - k);
    if k == 0 {
      LastChildIsListed(data, q, p);
    } else {
      PrefixIsDrawn(data, prefixes, q, n - 1, k - 1);
    }
  }

  /** The way up goes through the parent. */
  lemma UpStep(data: Snapshot, p: Pid, n: nat, k: nat)
    requires p in data && k < n && Up(data, p, n).Some?
    ensures ParentOf(data, p).Some?
    ensures var q := ParentOf(data, p).value;
            && q in data && Up(data, q, n - 1) == Up(data, p, n) && Up(data, p, k + 1) == Up(data, q, k)
            && (if k == 0 then Up(data, p, k) == Some(p) && Up(data, p, k + 1) == Some(q) else Up(data, p, k) == Up(data, q, k - 1))
  {
    var q := ParentOf(data, p).value;
    assert q in data && Up(data, q, 0) == Some(q);
  }
}
