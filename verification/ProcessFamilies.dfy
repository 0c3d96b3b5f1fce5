/** Lemmas for building the process tree and for collecting what is below a process. */
module ProcessFamilies {
  import opened Text
  import opened Sorting
  import opened ProcessForest
  import opened ProcessOrder
  import opened ProcessTree
  import opened ProcessSiblings

  // ---- Walking a map in the order of its keys ----

  lemma LeastExists(s: set<Pid>, y: Pid)
    requires y in s
    ensures exists k :: k in s && forall x :: x in s ==> k <= x
    decreases y
  {
    if x :| x in s && x < y {
      LeastExists(s, x);
    }
  }

  function Least(s: set<Pid>): (k: Pid)
    requires s != {}
    ensures k in s && forall x :: x in s ==> k <= x
  {
    var y :| y in s;
    LeastExists(s, y);
    var k :| k in s && forall x :: x in s ==> k <= x;
    k
  }

  function InKeyOrder(s: set<Pid>): (ks: seq<Pid>)
    ensures forall p :: p in ks <==> p in s
    ensures Distinct(ks)
    decreases |s|
  {
    if s == {} then []
    else
      var k := Least(s);
      [k] + InKeyOrder(s - {k})
  }

  ghost predicate DistinctLists(children: Children) {
    forall p: Pid :: Distinct(ListOf(children, p))
  }

  ghost predicate ListsWithin(children: Children, all: set<Pid>) {
    forall p: Pid :: ListWithin(ListOf(children, p), all)
  }

  ghost predicate ListWithin(list: seq<Pid>, all: set<Pid>) {
    Distinct(list) && forall c :: c in list ==> c in all
  }

  lemma OnlyLastIsLast(children: Children, all: set<Pid>, q: Pid, i: nat)
    requires ListsWithin(children, all) && i < |ListOf(children, q)|
    ensures ListOf(children, q)[i] in all
    ensures LastIn(children, q, ListOf(children, q)[i]) <==> i + 1 == |ListOf(children, q)|
  {
    assert ListWithin(ListOf(children, q), all);
  }

  lemma ContinueBranch(prefix: string, last: bool)
    ensures Continue(prefix + Branch(last)) == prefix + Below(last)
  {
    var drawn := prefix + Branch(last);
    assert drawn[..|drawn| - 3] == prefix && drawn[|drawn| - 3..] == Branch(last);
  }

  lemma WalkLeavesLess(all: set<Pid>, children: Children, visited: set<Pid>, pid: Pid, ps: seq<Pid>, i: nat, now: set<Pid>, done: seq<Pid>)
    requires i <= |ps| && Walked(all, children, visited + {pid}, ps, i, now, done)
    requires pid in all && pid !in visited
    ensures |all - now| < |all - visited|
  {
    assert visited + ({pid} + Members(done)) == now;
    Shrinks(all, visited, {pid} + Members(done));
  }

  lemma VisitedAddsNothing(all: set<Pid>, children: Children, visited: set<Pid>, p: Pid)
    requires p in visited
    ensures Visit(all, children, visited, p) == [] && visited + Members([]) == visited
  {
  }

  /** The children and roots among the processes seen so far. */
  ghost predicate Families(data: Snapshot, seen: seq<Pid>, children: Children, roots: seq<Pid>) {
    && (forall p: Pid, c: Pid :: c in ListOf(children, p) <==> c in seen && c in data && ParentOf(data, c) == Some(p))
    && DistinctLists(children)
    && (forall p :: p in roots <==> p in seen && p in data && ParentOf(data, p).None?)
    && Distinct(roots)
  }

  lemma DistinctSnoc(ps: seq<Pid>, p: Pid)
    requires Distinct(ps) && p !in ps
    ensures Distinct(ps + [p])
  {
  }

  lemma FamiliesStep(data: Snapshot, seen: seq<Pid>, children: Children, roots: seq<Pid>, pid: Pid)
    requires Families(data, seen, children, roots) && pid in data && pid !in seen
    ensures var parent := ParentOf(data, pid);
            if parent.None? then Families(data, seen + [pid], children, roots + [pid])
            else Families(data, seen + [pid], children[parent.value := ListOf(children, parent.value) + [pid]], roots)
  {
    var parent := ParentOf(data, pid);
    hide ParentOf;
    if parent.None? {
      DistinctSnoc(roots, pid);
    } else {
      var q := parent.value;
      DistinctSnoc(ListOf(children, q), pid);
      var now := children[q := ListOf(children, q) + [pid]];
      assert ListOf(now, q) == ListOf(children, q) + [pid];
      assert forall p: Pid :: p != q ==> ListOf(now, p) == ListOf(children, p);
    }
  }

  lemma Renumbering(now: Snapshot, data: Snapshot, pid: Pid, number: int)
    requires SameButOrder(now, data) && pid in data
    ensures pid in now && SameButOrder(now[pid := now[pid].(treeOrder := number)], data)
  {
  }

  lemma FamiliesAre(data: Snapshot, now: Snapshot, seen: seq<Pid>, children: Children, roots: seq<Pid>)
    requires WellKeyed(data) && SameButOrder(now, data) && Families(data, seen, children, roots)
    requires forall p :: p in seen <==> p in data
    ensures WellKeyed(now) && ChildrenOf(now, children) && RootsOf(now, roots)
    ensures Distinct(roots) && ListsWithin(children, now.Keys)
  {
    forall c | c in data ensures ParentOf(now, c) == ParentOf(data, c) {
      SameParents(now, data, c);
    }
    hide ParentOf, ListOf;
    assert now.Keys == data.Keys;
    hide SameButOrder, WellKeyed;
    forall p: Pid, c: Pid ensures c in ListOf(children, p) <==> c in now && ParentOf(now, c) == Some(p) {
    }
    forall p: Pid ensures ListWithin(ListOf(children, p), now.Keys) {
    }
  }

  lemma FamiliesAreListed(data: Snapshot, children: Children, roots: seq<Pid>)
    requires ChildrenOf(data, children) && RootsOf(data, roots)
    ensures forall p: Pid, c: Pid :: c in ListOf(children, p) <==> ListedUnder(data, c, p)
    ensures forall c :: c in roots <==> c in data && !exists p :: ListedUnder(data, c, p)
  {
    ParentIsListed(data);
    hide ParentOf, ListOf;
    assert forall p: Pid, c: Pid :: ListedUnder(data, c, p) ==> c in data;
    hide ListedUnder;
  }

  lemma DescendantsAreListed(data: Snapshot, root: Pid, descendants: seq<Pid>)
    requires root in data && Members(descendants) == Subtree(data, root) - {root}
    ensures forall c :: c != root ==> (c in descendants <==> exists p :: (p == root || p in descendants) && ListedUnder(data, c, p))
  {
    assert Up(data, root, 0) == Some(root);
    hide ListedUnder;
    assert forall x :: x in Subtree(data, root) <==> x == root || x in Members(descendants);
    hide Subtree;
    forall c | c != root ensures c in descendants <==> exists p :: (p == root || p in descendants) && ListedUnder(data, c, p) {
      SubtreeSteps(data, root, c);
    }
  }

  ghost predicate ListSorted(data: Snapshot, children: Children, sorted: Children, p: Pid) {
    && SameElements(ListOf(sorted, p), ListOf(children, p)) && Distinct(ListOf(sorted, p))
    && InDefaultOrder(data, ListOf(sorted, p))
  }

  /** The first lists are sorted, the others untouched. */
  ghost predicate SortedSoFar(data: Snapshot, children: Children, sorted: Children, parents: seq<Pid>, n: nat)
    requires n <= |parents|
  {
    && (forall i :: 0 <= i < n ==> ListSorted(data, children, sorted, parents[i]))
    && (forall p: Pid :: p !in parents[..n] ==> ListOf(sorted, p) == ListOf(children, p))
  }

  lemma SortingStep(data: Snapshot, children: Children, sorted: Children, parents: seq<Pid>, n: nat, list: seq<Pid>)
    requires n < |parents| && Distinct(parents) && SortedSoFar(data, children, sorted, parents, n)
    requires SameElements(list, ListOf(children, parents[n])) && Distinct(list) && InDefaultOrder(data, list)
    ensures SortedSoFar(data, children, sorted[parents[n] := list], parents, n + 1)
  {
    hide SameElements, InDefaultOrder;
    var now := sorted[parents[n] := list];
    assert ListOf(now, parents[n]) == list;
    forall p: Pid | p != parents[n] ensures ListOf(now, p) == ListOf(sorted, p) {
    }
    forall i | 0 <= i < n + 1 ensures ListSorted(data, children, now, parents[i]) {
    }
    assert parents[..n + 1] == parents[..n] + [parents[n]];
  }

  lemma SortingDone(data: Snapshot, children: Children, sorted: Children, parents: seq<Pid>)
    requires SortedSoFar(data, children, sorted, parents, |parents|) && ChildrenOf(data, children)
    requires forall p: Pid :: p in parents <==> p in children
    ensures ChildrenOf(data, sorted) && SortedLists(data, sorted) && ListsWithin(sorted, data.Keys)
  {
    hide ParentOf;
    assert parents[..|parents|] == parents;
    forall p: Pid ensures ListSorted(data, children, sorted, p) {
      if p in children {
        var i :| 0 <= i < |parents| && parents[i] == p;
      }
    }
    hide InDefaultOrder, ListOf;
    forall p: Pid ensures InDefaultOrder(data, ListOf(sorted, p)) && ListWithin(ListOf(sorted, p), data.Keys) {
      assert ListSorted(data, children, sorted, p);
    }
    forall p: Pid, c: Pid ensures c in ListOf(sorted, p) <==> c in data && ParentOf(data, c) == Some(p) {
      assert ListSorted(data, children, sorted, p);
    }
  }

  lemma TreesJoined(data: Snapshot, s1: Snapshot, d1: Prefixes, s2: Snapshot, d2: Prefixes,
      children: Children, roots: seq<Pid>, remaining: seq<Pid>, trees: seq<Pid>, rest: seq<Pid>)
    requires Appended(data, map[], s1, d1, trees, 0) && AllDrawn(children, d1, roots, "", trees)
    requires Appended(s1, d1, s2, d2, rest, |trees|) && AllDrawn(children, d2, remaining, "", rest)
    requires forall p :: p in trees ==> p !in rest
    ensures Appended(data, map[], s2, d2, trees + rest, 0)
    ensures AllDrawn(children, d2, roots + remaining, "", trees + rest)
  {
    hide Appended, AllDrawn;
    AppendedConcat(data, map[], s1, d1, s2, d2, trees, rest, 0);
    AppendedAgree(data, map[], s1, d1, s2, d2, trees, rest, 0, |trees|);
    AllDrawnConcat(children, d1, d2, roots, remaining, trees, rest);
  }

  lemma AppendedAll(data: Snapshot, now: Snapshot, drawn: Prefixes, order: seq<Pid>)
    requires Appended(data, map[], now, drawn, order, 0)
    ensures SameButOrder(now, data) && Numbered(now, order, 0) && drawn.Keys == Members(order)
  {
    var none: Prefixes := map[];
    assert none.Keys == {};
  }

  lemma SameTwice(now: Snapshot, mid: Snapshot, first: Snapshot)
    requires SameButOrder(now, mid) && SameButOrder(mid, first)
    ensures SameButOrder(now, first)
  {
  }

  /** The two walks over the trees number and draw the whole snapshot. */
  lemma TreeBuilt(data: Snapshot, now: Snapshot, drawn: Prefixes, children: Children, roots: seq<Pid>, remaining: seq<Pid>)
    requires WellKeyed(data) && ChildrenOf(data, children) && RootsOf(data, roots) && SortedLists(data, children)
    requires RemainingOf(data, children, roots, remaining)
    requires var order := TreeOrder(data.Keys, children, roots, remaining);
             Appended(data, map[], now, drawn, order, 0) && AllDrawn(children, drawn, roots + remaining, "", order)
    ensures SameButOrder(now, data) && WellKeyed(now)
    ensures ForestOrder(now, TreeOrder(data.Keys, children, roots, remaining)) && DrawsForest(now, drawn)
  {
    var order := TreeOrder(data.Keys, children, roots, remaining);
    AppendedAll(data, now, drawn, order);
    assert now.Keys == data.Keys;
    assert RemainingOf(now, children, roots, remaining);
    hide TreeOrder, VisitAll, Visit, Appended, AllDrawn, Numbered, ForestOrder, ChildrenOf, SortedLists, RootsOf,
      RemainingOf, DrawsForest, WellKeyed, SameButOrder;
    FamiliesKeep(data, now, children, roots);
    OrderIsBijection(now, children, roots, remaining);
    NumbersMakeForest(now, children, roots, remaining);
    DrawingsFit(now, children, roots, remaining, drawn);
  }

  /** The numbers follow the lists of siblings. */
  lemma SiblingsBuilt(data: Snapshot, now: Snapshot, drawn: Prefixes, children: Children, roots: seq<Pid>, remaining: seq<Pid>)
    requires WellKeyed(data) && ChildrenOf(data, children) && RootsOf(data, roots) && SortedLists(data, children)
    requires InDefaultOrder(data, roots)
    requires Appended(data, map[], now, drawn, TreeOrder(data.Keys, children, roots, remaining), 0)
    requires RemainingOf(data, children, roots, remaining)
    ensures SiblingsInOrder(now) && RootedFirst(now)
  {
    var order := TreeOrder(data.Keys, children, roots, remaining);
    AppendedAll(data, now, drawn, order);
    assert now.Keys == data.Keys;
    SameOrder(data, now, roots);
    assert RemainingOf(now, children, roots, remaining);
    OrderIsBijection(now, children, roots, remaining);
    hide TreeOrder, VisitAll, Visit, Appended, Numbered, ChildrenOf, SortedLists, RootsOf, WellKeyed, SameButOrder, InDefaultOrder;
    FamiliesKeep(data, now, children, roots);
    SiblingsNumbered(now, children, roots, remaining);
    RootedNumbered(now, children, roots, remaining);
  }

  // ---- Breadth-first search ----

  /** The processes found below the root; the children of the first i have been looked at. */
  ghost predicate Explored(data: Snapshot, children: Children, root: Pid, pending: seq<Pid>, i: nat) {
    && i <= |pending| && pending != [] && pending[0] == root && Distinct(pending)
    && (forall x :: x in pending ==> x in data && Descends(data, x, root))
    && forall j :: 0 <= j < i ==> Looked(pending, ListOf(children, pending[j]), |ListOf(children, pending[j])|)
  }

  ghost predicate Looked(pending: seq<Pid>, list: seq<Pid>, n: nat) {
    n <= |list| && forall k :: 0 <= k < n ==> list[k] in pending
  }

  lemma ExplorationStarts(data: Snapshot, children: Children, root: Pid)
    requires root in data
    ensures Explored(data, children, root, [root], 0)
  {
    assert Up(data, root, 0) == Some(root);
  }

  lemma ChildFound(data: Snapshot, children: Children, root: Pid, pending: seq<Pid>, i: nat, child: Pid)
    requires ChildrenOf(data, children) && Explored(data, children, root, pending, i) && i < |pending|
    requires child in ListOf(children, pending[i]) && child !in pending
    ensures Explored(data, children, root, pending + [child], i)
  {
    DistinctSnoc(pending, child);
    assert ParentOf(data, child) == Some(pending[i]) && pending[i] in pending;
    var n: nat :| Up(data, pending[i], n) == Some(root);
    assert Up(data, child, n + 1) == Some(root);
    hide Up, ParentOf, ListOf;
    forall j | 0 <= j < i ensures Looked(pending + [child], ListOf(children, (pending + [child])[j]), |ListOf(children, (pending + [child])[j])|) {
      assert Looked(pending, ListOf(children, pending[j]), |ListOf(children, pending[j])|);
    }
  }

  lemma LookedOn(pending: seq<Pid>, list: seq<Pid>, n: nat)
    requires n < |list| && Looked(pending, list, n)
    ensures if list[n] in pending then Looked(pending, list, n + 1) else Looked(pending + [list[n]], list, n + 1)
  {
  }

  lemma ChildrenLooked(data: Snapshot, children: Children, root: Pid, pending: seq<Pid>, i: nat)
    requires Explored(data, children, root, pending, i) && i < |pending|
    requires Looked(pending, ListOf(children, pending[i]), |ListOf(children, pending[i])|)
    ensures Explored(data, children, root, pending, i + 1)
  {
    hide Looked, ListOf;
  }

  lemma {:induction false} SubtreeExplored(data: Snapshot, children: Children, root: Pid, pending: seq<Pid>, x: Pid, n: nat)
    requires ChildrenOf(data, children) && Explored(data, children, root, pending, |pending|)
    requires x in data && Up(data, x, n) == Some(root)
    ensures x in pending
    decreases n
  {
    if n > 0 {
      var q := ParentOf(data, x).value;
      SubtreeExplored(data, children, root, pending, q, n - 1);
      var j :| 0 <= j < |pending| && pending[j] == q;
      assert Looked(pending, ListOf(children, pending[j]), |ListOf(children, pending[j])|);
      assert x in ListOf(children, q);
    }
  }

  lemma ExploredIsSubtree(data: Snapshot, children: Children, root: Pid, pending: seq<Pid>)
    requires ChildrenOf(data, children) && Explored(data, children, root, pending, |pending|)
    ensures Members(pending) == Subtree(data, root)
  {
    forall x | x in data && Descends(data, x, root) ensures x in pending {
      var n: nat :| Up(data, x, n) == Some(root);
      SubtreeExplored(data, children, root, pending, x, n);
    }
  }

  lemma ExploredFits(data: Snapshot, children: Children, root: Pid, pending: seq<Pid>, i: nat)
    requires Explored(data, children, root, pending, i)
    ensures |pending| <= |data.Keys|
  {
    DistinctFits(pending, data.Keys);
  }

  lemma {:induction false} DistinctFits(ps: seq<Pid>, all: set<Pid>)
    requires Distinct(ps) && forall p :: p in ps ==> p in all
    ensures |ps| <= |all|
    decreases |ps|
  {
    if ps != [] {
      DistinctFits(ps[1..], all - {ps[0]});
    }
  }

  lemma DescendantsFound(data: Snapshot, children: Children, root: Pid, descendants: seq<Pid>)
    requires ChildrenOf(data, children) && Explored(data, children, root, [root] + descendants, |descendants| + 1)
    ensures Distinct(descendants) && Members(descendants) == Subtree(data, root) - {root}
    ensures forall p :: p in descendants ==> p in data
  {
    var pending := [root] + descendants;
    ExploredIsSubtree(data, children, root, pending);
    hide ChildrenOf, Subtree;
    forall i, j | 0 <= i < j < |descendants| ensures descendants[i] != descendants[j] {
      assert pending[i + 1] != pending[j + 1];
    }
    assert Members(pending) == {root} + Members(descendants);
    forall i | 0 <= i < |descendants| ensures descendants[i] != root {
      assert pending[0] != pending[i + 1];
    }
  }

  // ---- Descendants in the order of the tree ----

  ghost predicate InTreeOrder(data: Snapshot, ps: seq<Pid>) {
    && (forall p :: p in ps ==> p in data)
    && forall i, j :: 0 <= i < j < |ps| ==>
         data[ps[i]].treeOrder < data[ps[j]].treeOrder || (data[ps[i]].treeOrder == data[ps[j]].treeOrder && ps[i] < ps[j])
  }

  /** What was collected below a process is what the numbering put right after it. */
  lemma DescendantsFollow(data: Snapshot, order: seq<Pid>, root: Pid, descendants: seq<Pid>)
    requires ForestOrder(data, order) && root in data && Rooted(data, root)
    requires Distinct(descendants) && Members(descendants) == Subtree(data, root) - {root}
    requires InTreeOrder(data, descendants)
    ensures exists k: nat :: Follows(order, root, descendants, k)
  {
    hide Rooted, Subtree;
    assert HasInterval(data, order, root);
    var k: nat :| StartsAt(data, order, root, k);
    var m :| k < m <= |order| && Members(order[k..m]) == Subtree(data, order[k]);
    var stretch := order[k + 1..m];
    assert order[k..m] == [root] + stretch;
    assert root !in stretch;
    forall x ensures x in descendants <==> x in stretch {
      assert x in Members(order[k..m]) <==> x in [root] + stretch;
    }
    hide Block, HasInterval;
    SortedStretch(data, order, stretch, k + 1, descendants);
    assert Follows(order, root, descendants, k);
  }

  ghost predicate Follows(order: seq<Pid>, root: Pid, descendants: seq<Pid>, k: nat) {
    && k + |descendants| < |order| && order[k] == root
    && order[k + 1..k + 1 + |descendants|] == descendants
  }

  lemma SortedStretch(data: Snapshot, order: seq<Pid>, stretch: seq<Pid>, k: nat, descendants: seq<Pid>)
    requires Numbered(data, order, 0) && Distinct(order) && k + |stretch| <= |order| && order[k..k + |stretch|] == stretch
    requires Distinct(descendants) && InTreeOrder(data, descendants)
    requires forall x :: x in descendants <==> x in stretch
    ensures descendants == stretch
  {
    var less := (x: Pid, y: Pid) => TreeLess(data, x, y);
    forall i | 0 <= i < |stretch| ensures stretch[i] in data && data[stretch[i]].treeOrder == k + i {
      assert stretch[i] == order[k + i];
    }
    assert Sorted(less, stretch) && Distinct(stretch);
    assert Sorted(less, descendants);
    forall p | p in descendants ensures p in data {
      assert p in stretch;
    }
    TreeIsStrict(data, descendants);
    SameCount(descendants, stretch);
    SortIsUnique(less, descendants, stretch);
  }
}
