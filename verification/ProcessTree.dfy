/** How the process tree is numbered and drawn. */
module ProcessTree {
  import opened Text
  import opened Sorting
  import opened ProcessForest
  import opened ProcessOrder

  type Prefixes = map<Pid, string>

  ghost predicate SameButOrder(now: Snapshot, data: Snapshot) {
    now.Keys == data.Keys && forall p :: p in data ==> now[p] == data[p].(treeOrder := now[p].treeOrder)
  }

  lemma SameParents(now: Snapshot, data: Snapshot, p: Pid)
    requires SameButOrder(now, data) && WellKeyed(data) && p in data
    ensures ParentOf(now, p) == ParentOf(data, p)
  {
    assert p in now;
  }

  ghost predicate Numbered(data: Snapshot, added: seq<Pid>, from: int) {
    forall i :: 0 <= i < |added| ==> added[i] in data && data[added[i]].treeOrder == from + i
  }

  // ---- What the numbering is for ----

  ghost predicate StartsAt(data: Snapshot, order: seq<Pid>, p: Pid, k: nat) {
    k < |order| && order[k] == p && Block(data, order, k)
  }

  ghost predicate HasInterval(data: Snapshot, order: seq<Pid>, p: Pid) {
    exists k: nat :: StartsAt(data, order, p, k)
  }

  /** The numbers count every process once, and every tree is a stretch of them. */
  ghost predicate ForestOrder(data: Snapshot, order: seq<Pid>) {
    && Distinct(order) && Members(order) == data.Keys && Numbered(data, order, 0)
    && forall p :: p in data && Rooted(data, p) ==> HasInterval(data, order, p)
  }

  lemma NumberedConcat(data: Snapshot, a: seq<Pid>, b: seq<Pid>, from: int)
    requires Numbered(data, a, from) && Numbered(data, b, from + |a|)
    ensures Numbered(data, a + b, from)
  {
  }

  lemma NumberedKeeps(before: Snapshot, now: Snapshot, a: seq<Pid>, from: int)
    requires Numbered(before, a, from)
    requires forall p :: p in a ==> p in now && now[p].treeOrder == before[p].treeOrder
    ensures Numbered(now, a, from)
  {
  }

  lemma NumbersMakeForest(data: Snapshot, children: Children, roots: seq<Pid>, remaining: seq<Pid>)
    requires ChildrenOf(data, children) && RootsOf(data, roots) && RemainingOf(data, children, roots, remaining)
    requires Numbered(data, TreeOrder(data.Keys, children, roots, remaining), 0)
    ensures ForestOrder(data, TreeOrder(data.Keys, children, roots, remaining))
  {
    var order := TreeOrder(data.Keys, children, roots, remaining);
    hide TreeOrder, ChildrenOf, RootsOf, Rooted, Block;
    OrderIsBijection(data, children, roots, remaining);
    forall p | p in data && Rooted(data, p) ensures HasInterval(data, order, p) {
      var k := SubtreeIsInterval(data, children, roots, remaining, p);
      assert StartsAt(data, order, p, k);
    }
  }

  /** What numbering a stretch of processes does to the snapshot and the prefixes. */
  ghost predicate Appended(before: Snapshot, drawn: Prefixes, now: Snapshot, nowDrawn: Prefixes, added: seq<Pid>, from: int) {
    && SameButOrder(now, before) && Numbered(now, added, from)
    && (forall p :: p in before && p !in added ==> now[p] == before[p])
    && nowDrawn.Keys == drawn.Keys + Members(added)
    && (forall p :: p in drawn && p !in added ==> nowDrawn[p] == drawn[p])
  }

  lemma AppendedConcat(s0: Snapshot, d0: Prefixes, s1: Snapshot, d1: Prefixes, s2: Snapshot, d2: Prefixes,
      a: seq<Pid>, b: seq<Pid>, from: int)
    requires Appended(s0, d0, s1, d1, a, from) && Appended(s1, d1, s2, d2, b, from + |a|)
    requires forall p :: p in a ==> p !in b
    ensures Appended(s0, d0, s2, d2, a + b, from)
  {
    NumberedKeeps(s1, s2, a, from);
    NumberedConcat(s2, a, b, from);
    assert Members(a + b) == Members(a) + Members(b);
  }

  // ---- Prefixes ----

  const LAST := "└─ "
  const INNER := "├─ "

  function Branch(last: bool): string {
    if last then LAST else INNER
  }

  function Below(last: bool): string {
    if last then "   " else "│  "
  }

  /** Below a process the lines of its ancestors go on, unless they ended there. */
  function Continue(prefix: string): string {
    if |prefix| < 3 then ""
    else prefix[..|prefix| - 3] + Below(prefix[|prefix| - 3..] == LAST)
  }

  predicate LastIn(children: Children, q: Pid, c: Pid) {
    ListOf(children, q) != [] && ListOf(children, q)[|ListOf(children, q)| - 1] == c
  }

  /** No sibling comes after c. */
  ghost predicate LastChild(data: Snapshot, q: Pid, c: Pid) {
    forall d :: d in data && ParentOf(data, d) == Some(q) && d != c ==> DefaultLess(data, d, c)
  }

  /** c is drawn below q. */
  ghost predicate DrawnBelow(children: Children, prefixes: Prefixes, q: Pid, c: Pid) {
    && c in ListOf(children, q) && q in prefixes && c in prefixes
    && prefixes[c] == Continue(prefixes[q]) + Branch(LastIn(children, q, c))
  }

  ghost predicate Drawn(children: Children, prefixes: Prefixes, added: seq<Pid>, c: Pid) {
    exists q :: q in added && DrawnBelow(children, prefixes, q, c)
  }

  /** The heads of a stretch are drawn as given, everything else below another process of it. */
  ghost predicate AllDrawn(children: Children, prefixes: Prefixes, heads: seq<Pid>, prefix: string, added: seq<Pid>) {
    forall c :: c in added ==> c in prefixes && ((c in heads && prefixes[c] == prefix) || Drawn(children, prefixes, added, c))
  }

  lemma DrawnKeeps(children: Children, before: Prefixes, now: Prefixes, added: seq<Pid>, more: seq<Pid>, c: Pid)
    requires Drawn(children, before, added, c) && c in added
    requires forall p :: p in added ==> p in before && p in now && now[p] == before[p]
    requires forall p :: p in added ==> p in more
    ensures Drawn(children, now, more, c)
  {
    var q :| q in added && DrawnBelow(children, before, q, c);
    assert DrawnBelow(children, now, q, c);
  }

  lemma AllDrawnConcat(children: Children, before: Prefixes, now: Prefixes, heads: seq<Pid>, more: seq<Pid>, a: seq<Pid>, b: seq<Pid>)
    requires AllDrawn(children, before, heads, "", a) && AllDrawn(children, now, more, "", b)
    requires forall p :: p in a ==> p in now && now[p] == before[p]
    ensures forall all :: (forall p :: p in heads || p in more ==> p in all) ==> AllDrawn(children, now, all, "", a + b)
  {
    forall c | c in a + b
      ensures c in now && (((c in heads || c in more) && now[c] == "") || Drawn(children, now, a + b, c))
    {
      if c in a {
        if Drawn(children, before, a, c) {
          DrawnKeeps(children, before, now, a, a + b, c);
        }
      } else if Drawn(children, now, b, c) {
        DrawnKeeps(children, now, now, b, a + b, c);
      }
    }
  }

  /** A process and what has been numbered below it so far. */
  ghost predicate Growing(before: Snapshot, drawn: Prefixes, now: Snapshot, nowDrawn: Prefixes,
      children: Children, pid: Pid, prefix: string, done: seq<Pid>, from: int) {
    && Appended(before, drawn, now, nowDrawn, [pid] + done, from)
    && pid in nowDrawn && nowDrawn[pid] == prefix
    && forall c :: c in done ==> Drawn(children, nowDrawn, [pid] + done, c)
  }

  lemma DrawnStep(d1: Prefixes, d2: Prefixes, children: Children, pid: Pid, done: seq<Pid>, child: Pid, first: seq<Pid>, c: Pid)
    requires c in done ==> Drawn(children, d1, [pid] + done, c)
    requires forall p :: p in [pid] + done ==> p in d1 && p in d2 && d2[p] == d1[p]
    requires DrawnBelow(children, d2, pid, child)
    requires AllDrawn(children, d2, [child], d2[child], first)
    requires c in done || c in first
    ensures Drawn(children, d2, [pid] + done + first, c)
  {
    hide DrawnBelow;
    var all := [pid] + done + first;
    assert pid in all;
    if c in done {
      DrawnKeeps(children, d1, d2, [pid] + done, all, c);
    } else if c != child {
      DrawnKeeps(children, d2, d2, first, all, c);
    }
  }

  lemma AppendedAgree(before: Snapshot, drawn: Prefixes, s1: Snapshot, d1: Prefixes, s2: Snapshot, d2: Prefixes,
      a: seq<Pid>, b: seq<Pid>, from: int, more: int)
    requires Appended(before, drawn, s1, d1, a, from) && Appended(s1, d1, s2, d2, b, more)
    requires forall p :: p in a ==> p !in b
    ensures forall p :: p in a ==> p in d1 && p in d2 && d2[p] == d1[p]
  {
  }

  lemma GrowingStep(before: Snapshot, drawn: Prefixes, s1: Snapshot, d1: Prefixes, s2: Snapshot, d2: Prefixes,
      children: Children, pid: Pid, prefix: string, done: seq<Pid>, from: int, child: Pid, first: seq<Pid>)
    requires Growing(before, drawn, s1, d1, children, pid, prefix, done, from)
    requires Appended(s1, d1, s2, d2, first, from + 1 + |done|)
    requires child in ListOf(children, pid) && child in d2
    requires d2[child] == Continue(prefix) + Branch(LastIn(children, pid, child))
    requires AllDrawn(children, d2, [child], d2[child], first)
    requires pid !in first && forall p :: p in done ==> p !in first
    ensures Growing(before, drawn, s2, d2, children, pid, prefix, done + first, from)
  {
    hide Appended, Continue, LastIn, ListOf, AllDrawn, Drawn, Branch;
    var all := [pid] + done;
    assert [pid] + (done + first) == all + first;
    assert |all| == 1 + |done| && pid in all;
    assert forall p :: p in all ==> p == pid || p in done;
    AppendedConcat(before, drawn, s1, d1, s2, d2, all, first, from);
    AppendedAgree(before, drawn, s1, d1, s2, d2, all, first, from, from + |all|);
    assert d2[pid] == d1[pid];
    assert DrawnBelow(children, d2, pid, child);
    hide DrawnBelow;
    forall c | c in done + first ensures Drawn(children, d2, [pid] + (done + first), c) {
      DrawnStep(d1, d2, children, pid, done, child, first, c);
    }
  }

  lemma GrowingStart(before: Snapshot, drawn: Prefixes, children: Children, pid: Pid, prefix: string, from: int)
    requires pid in before
    ensures Growing(before, drawn, before[pid := before[pid].(treeOrder := from)], drawn[pid := prefix],
              children, pid, prefix, [], from)
  {
    assert [pid] + [] == [pid];
    assert Members([pid]) == {pid};
  }

  lemma GrowingDone(before: Snapshot, drawn: Prefixes, now: Snapshot, nowDrawn: Prefixes,
      children: Children, pid: Pid, prefix: string, done: seq<Pid>, from: int)
    requires Growing(before, drawn, now, nowDrawn, children, pid, prefix, done, from)
    ensures Appended(before, drawn, now, nowDrawn, [pid] + done, from)
    ensures pid in nowDrawn && nowDrawn[pid] == prefix && AllDrawn(children, nowDrawn, [pid], prefix, [pid] + done)
  {
    hide Appended;
    forall c | c in [pid] + done ensures c in nowDrawn && (c == pid || Drawn(children, nowDrawn, [pid] + done, c)) {
      if c in done {
        assert Drawn(children, nowDrawn, [pid] + done, c);
      }
    }
  }

  lemma NothingAppended(data: Snapshot, drawn: Prefixes, children: Children, heads: seq<Pid>, prefix: string, from: int)
    ensures Appended(data, drawn, data, drawn, [], from) && AllDrawn(children, drawn, heads, prefix, [])
  {
  }

  /** How far a walk over a list of processes has come. */
  ghost predicate Walked(all: set<Pid>, children: Children, start: set<Pid>, ps: seq<Pid>, i: nat, now: set<Pid>, done: seq<Pid>)
    requires i <= |ps|
  {
    && VisitAll(all, children, start, ps) == done + VisitAll(all, children, now, ps[i..])
    && now == start + Members(done)
    && forall p :: p in done ==> p !in start
  }

  lemma WalkStarts(all: set<Pid>, children: Children, start: set<Pid>, ps: seq<Pid>)
    ensures Walked(all, children, start, ps, 0, start, [])
  {
    assert ps[0..] == ps;
    assert start + Members([]) == start;
    assert forall more: seq<Pid> :: [] + more == more;
  }

  lemma WalkStep(all: set<Pid>, children: Children, start: set<Pid>, ps: seq<Pid>, i: nat, now: set<Pid>, done: seq<Pid>)
    requires i < |ps| && Walked(all, children, start, ps, i, now, done)
    ensures var first := Visit(all, children, now, ps[i]);
            Walked(all, children, start, ps, i + 1, now + Members(first), done + first) &&
            forall p :: p in done || p in start ==> p !in first
  {
    var first := Visit(all, children, now, ps[i]);
    VisitAllStep(all, children, now, ps, i);
    AddedMembers(start, done, first);
    hide Visit, VisitAll, Members;
    var rest := VisitAll(all, children, now + Members(first), ps[i + 1..]);
    assert done + (first + rest) == done + first + rest;
    assert forall p :: p in done ==> p in Members(done);
  }

  lemma WalkEnds(all: set<Pid>, children: Children, start: set<Pid>, ps: seq<Pid>, now: set<Pid>, done: seq<Pid>)
    requires Walked(all, children, start, ps, |ps|, now, done)
    ensures VisitAll(all, children, start, ps) == done && now == start + Members(done)
  {
    assert ps[|ps|..] == [];
  }

  /** Roots, and the start of a cycle, are drawn flush left; everything else below its parent. */
  ghost predicate PrefixFits(data: Snapshot, prefixes: Prefixes, p: Pid)
    requires p in data
  {
    && p in prefixes
    && (|| (prefixes[p] == "" && (ParentOf(data, p).None? || !Rooted(data, p)))
        || (ParentOf(data, p).Some? &&
            var q := ParentOf(data, p).value;
            q in prefixes && prefixes[p] == Continue(prefixes[q]) + Branch(LastChild(data, q, p))))
  }

  ghost predicate DrawsForest(data: Snapshot, prefixes: Prefixes) {
    prefixes.Keys == data.Keys && forall p {:trigger PrefixFits(data, prefixes, p)} :: p in data ==> PrefixFits(data, prefixes, p)
  }

  ghost predicate InDefaultOrder(data: Snapshot, ps: seq<Pid>) {
    forall i, j :: 0 <= i < j < |ps| ==> DefaultLess(data, ps[i], ps[j])
  }

  ghost predicate SortedLists(data: Snapshot, children: Children) {
    forall p: Pid :: InDefaultOrder(data, ListOf(children, p))
  }

  /** The entries of a sorted list all come before its last one. */
  lemma BeforeTheLast(data: Snapshot, list: seq<Pid>, c: Pid)
    requires InDefaultOrder(data, list) && c in list && c != list[|list| - 1]
    ensures DefaultLess(data, c, list[|list| - 1])
  {
    hide DefaultLess;
    var i :| 0 <= i < |list| && list[i] == c;
  }

  lemma ListedChildren(data: Snapshot, children: Children, q: Pid)
    requires ChildrenOf(data, children)
    ensures forall d :: d in ListOf(children, q) <==> d in data && ParentOf(data, d) == Some(q)
  {
  }

  lemma LastIsLast(data: Snapshot, children: Children, q: Pid, c: Pid)
    requires ChildrenOf(data, children) && SortedLists(data, children) && c in ListOf(children, q)
    ensures LastIn(children, q, c) <==> LastChild(data, q, c)
  {
    var list := ListOf(children, q);
    assert InDefaultOrder(data, list);
    var last := list[|list| - 1];
    assert last in list;
    ListedChildren(data, children, q);
    if c == last {
      hide ParentOf, ListOf, DefaultLess, InDefaultOrder, ChildrenOf, SortedLists;
      forall d | d in data && ParentOf(data, d) == Some(q) && d != c ensures DefaultLess(data, d, c) {
        BeforeTheLast(data, list, d);
      }
    } else {
      BeforeTheLast(data, list, c);
      hide ParentOf, ListOf, InDefaultOrder, ChildrenOf, SortedLists;
      assert ParentOf(data, last) == Some(q) && !DefaultLess(data, last, c);
    }
  }

  lemma DrawnFits(data: Snapshot, children: Children, prefixes: Prefixes, order: seq<Pid>, p: Pid)
    requires ChildrenOf(data, children) && SortedLists(data, children)
    requires Drawn(children, prefixes, order, p)
    ensures p in data && PrefixFits(data, prefixes, p)
  {
    hide SortedLists, LastIn, LastChild, ParentOf, ListOf, Continue;
    var q :| q in order && DrawnBelow(children, prefixes, q, p);
    LastIsLast(data, children, q, p);
  }

  /** Only a process whose ancestors run into a cycle is left after the trees of the roots. */
  lemma HeadsAreRootless(data: Snapshot, children: Children, roots: seq<Pid>, remaining: seq<Pid>, p: Pid)
    requires ChildrenOf(data, children) && RootsOf(data, roots) && RemainingOf(data, children, roots, remaining)
    requires p in roots || p in remaining
    ensures p in data && (ParentOf(data, p).None? || !Rooted(data, p))
  {
    hide ChildrenOf, ParentOf, Visit, VisitAll;
    if p in remaining && Rooted(data, p) {
      var n: nat :| Up(data, p, n).Some? && ParentOf(data, Up(data, p, n).value) == None;
      RootedVisited(data, children, roots, p, n);
    }
  }

  lemma DrawingsFit(data: Snapshot, children: Children, roots: seq<Pid>, remaining: seq<Pid>, prefixes: Prefixes)
    requires ChildrenOf(data, children) && SortedLists(data, children) && prefixes.Keys == data.Keys
    requires RootsOf(data, roots) && RemainingOf(data, children, roots, remaining)
    requires var order := TreeOrder(data.Keys, children, roots, remaining);
             AllDrawn(children, prefixes, roots + remaining, "", order) && Members(order) == data.Keys
    ensures DrawsForest(data, prefixes)
  {
    var order := TreeOrder(data.Keys, children, roots, remaining);
    hide TreeOrder, SortedLists, RootsOf, RemainingOf, ChildrenOf, Drawn, Rooted, ParentOf;
    forall p | p in data ensures PrefixFits(data, prefixes, p) {
      assert p in order;
      if Drawn(children, prefixes, order, p) {
        DrawnFits(data, children, prefixes, order, p);
      } else {
        HeadsAreRootless(data, children, roots, remaining, p);
      }
    }
  }

  /** Below the root every prefix goes on from that of the parent. */
  lemma PrefixStep(data: Snapshot, prefixes: Prefixes, p: Pid, n: nat)
    requires DrawsForest(data, prefixes) && p in data && n > 0
    requires Up(data, p, n).Some? && ParentOf(data, Up(data, p, n).value) == None
    ensures ParentOf(data, p).Some?
    ensures var q := ParentOf(data, p).value;
            q in data && q in prefixes && Up(data, q, n - 1) == Up(data, p, n) &&
            prefixes[p] == Continue(prefixes[q]) + Branch(LastChild(data, q, p))
  {
    assert PrefixFits(data, prefixes, p);
    assert Rooted(data, p);
    hide Rooted, LastChild, Continue, Branch, DrawsForest;
  }

  lemma PrefixOfRoot(data: Snapshot, prefixes: Prefixes, p: Pid)
    requires DrawsForest(data, prefixes) && p in data && ParentOf(data, p).None?
    ensures p in prefixes && prefixes[p] == ""
  {
    assert PrefixFits(data, prefixes, p);
  }

  lemma {:induction false} PrefixFollowsDepth(data: Snapshot, prefixes: Prefixes, p: Pid, n: nat)
    requires DrawsForest(data, prefixes) && p in data
    requires Up(data, p, n).Some? && ParentOf(data, Up(data, p, n).value) == None
    ensures |prefixes[p]| == 3 * n
    decreases n
  {
    if n == 0 {
      PrefixOfRoot(data, prefixes, p);
    } else {
      PrefixStep(data, prefixes, p, n);
      hide ParentOf, LastChild, Continue, Branch, Up, DrawsForest;
      var q := ParentOf(data, p).value;
      PrefixFollowsDepth(data, prefixes, q, n - 1);
      DeeperByThree(prefixes[q], LastChild(data, q, p));
    }
  }

  lemma DeeperByThree(prefix: string, last: bool)
    requires |prefix| % 3 == 0
    ensures |Continue(prefix) + Branch(last)| == |prefix| + 3
  {
  }

  // ---- Walking over a list of trees ----

  lemma ForestStep(s0: Snapshot, d0: Prefixes, s1: Snapshot, d1: Prefixes, s2: Snapshot, d2: Prefixes,
      children: Children, heads: seq<Pid>, head: Pid, a: seq<Pid>, b: seq<Pid>, from: int)
    requires Appended(s0, d0, s1, d1, a, from) && Appended(s1, d1, s2, d2, b, from + |a|)
    requires AllDrawn(children, d1, heads, "", a) && AllDrawn(children, d2, [head], "", b) && head in heads
    requires forall p :: p in a ==> p !in b
    ensures Appended(s0, d0, s2, d2, a + b, from) && AllDrawn(children, d2, heads, "", a + b)
  {
    AppendedConcat(s0, d0, s1, d1, s2, d2, a, b, from);
    AppendedAgree(s0, d0, s1, d1, s2, d2, a, b, from, from + |a|);
    hide Appended, AllDrawn;
    AllDrawnConcat(children, d1, d2, heads, [head], a, b);
  }

  lemma SameParentsAll(data: Snapshot, now: Snapshot)
    requires WellKeyed(data) && SameButOrder(now, data)
    ensures forall c :: c in data ==> ParentOf(now, c) == ParentOf(data, c)
  {
    forall c | c in data ensures ParentOf(now, c) == ParentOf(data, c) {
      SameParents(now, data, c);
    }
  }

  lemma SameOrder(data: Snapshot, now: Snapshot, list: seq<Pid>)
    requires SameButOrder(now, data) && InDefaultOrder(data, list) && forall p :: p in list ==> p in data
    ensures InDefaultOrder(now, list)
  {
    forall i, j | 0 <= i < j < |list| ensures DefaultLess(now, list[i], list[j]) {
      assert list[i] in list && list[j] in list;
      assert DefaultLess(data, list[i], list[j]);
    }
  }

  lemma SameChildren(data: Snapshot, now: Snapshot, children: Children, roots: seq<Pid>)
    requires WellKeyed(data) && SameButOrder(now, data) && ChildrenOf(data, children) && RootsOf(data, roots)
    ensures ChildrenOf(now, children) && RootsOf(now, roots)
  {
    SameParentsAll(data, now);
    assert now.Keys == data.Keys;
    hide ParentOf, ListOf, SameButOrder, WellKeyed;
    forall p: Pid ensures forall c :: c in ListOf(children, p) <==> c in now && ParentOf(now, c) == Some(p) {
      ListedChildren(data, children, p);
      hide ChildrenOf, RootsOf;
    }
    hide ChildrenOf;
  }

  lemma SameSorting(data: Snapshot, now: Snapshot, children: Children)
    requires SameButOrder(now, data) && ChildrenOf(data, children) && SortedLists(data, children)
    ensures SortedLists(now, children)
  {
    forall p: Pid ensures InDefaultOrder(now, ListOf(children, p)) {
      ListedChildren(data, children, p);
      hide ParentOf, InDefaultOrder, ListOf, ChildrenOf;
      SameOrder(data, now, ListOf(children, p));
    }
  }

  lemma FamiliesKeep(data: Snapshot, now: Snapshot, children: Children, roots: seq<Pid>)
    requires WellKeyed(data) && SameButOrder(now, data)
    requires ChildrenOf(data, children) && RootsOf(data, roots) && SortedLists(data, children)
    ensures WellKeyed(now) && ChildrenOf(now, children) && RootsOf(now, roots) && SortedLists(now, children)
  {
    SameChildren(data, now, children, roots);
    SameSorting(data, now, children);
    hide ChildrenOf, RootsOf, SortedLists;
  }
}
