/** The parent and child forest of a process snapshot, and numbering it depth first. */
module ProcessForest {
  import opened Text
  import opened Sorting

  type Pid = nat

  datatype ProcessInfo = ProcessInfo(
    pid: Pid,
    parentPid: Pid,
    name: string,
    path: string,
    hasStartTime: bool,
    startTime: nat,
    startTimeText: string,
    defaultOrder: int,
    treeOrder: int)

  type Snapshot = map<Pid, ProcessInfo>

  ghost predicate WellKeyed(data: Snapshot) {
    forall p :: p in data ==> data[p].pid == p
  }

  /** The parent, unless its number is unknown, its own, or was reused by a younger process. */
  function ParentOf(data: Snapshot, p: Pid): Option<Pid>
    requires p in data
  {
    var child := data[p];
    if child.parentPid != 0 && child.parentPid != child.pid && child.parentPid in data &&
       !(data[child.parentPid].hasStartTime && child.hasStartTime &&
         data[child.parentPid].startTime > child.startTime)
    then Some(child.parentPid) else None
  }

  /** The child was listed with this parent, which is there, is another process and is not known to have started later. */
  ghost predicate ListedUnder(data: Snapshot, child: Pid, parent: Pid) {
    && child in data && parent in data && data[child].parentPid == parent && parent != 0 && parent != data[child].pid
    && (data[parent].hasStartTime && data[child].hasStartTime ==> data[parent].startTime <= data[child].startTime)
  }

  lemma ParentIsListed(data: Snapshot)
    ensures forall c: Pid, p: Pid :: c in data ==> (ParentOf(data, c) == Some(p) <==> ListedUnder(data, c, p))
    ensures forall c: Pid :: c in data ==> (ParentOf(data, c).None? <==> !exists p :: ListedUnder(data, c, p))
  {
    forall c: Pid | c in data ensures ParentOf(data, c).None? <==> !exists p :: ListedUnder(data, c, p) {
      if ParentOf(data, c).Some? {
        assert ListedUnder(data, c, ParentOf(data, c).value);
      }
    }
  }

  type Children = map<Pid, seq<Pid>>

  function ListOf(children: Children, p: Pid): seq<Pid> {
    if p in children then children[p] else []
  }

  /** The lists hold exactly the children of each process. */
  ghost predicate ChildrenOf(data: Snapshot, children: Children) {
    forall p: Pid, c: Pid :: c in ListOf(children, p) <==> c in data && ParentOf(data, c) == Some(p)
  }

  // ---- Depth-first numbering ----

  /** What a visit adds to the numbering: the process and then its unvisited descendants. */
  function Visit(all: set<Pid>, children: Children, visited: set<Pid>, p: Pid): (added: seq<Pid>)
    ensures forall x :: x in added ==> x in all && x !in visited
    ensures p in all ==> p in visited || p in added
    decreases |all - visited|, 0
  {
    if p in visited || p !in all then []
    else
      Shrinks(all, visited, {p});
      [p] + VisitAll(all, children, visited + {p}, ListOf(children, p))
  }

  function VisitAll(all: set<Pid>, children: Children, visited: set<Pid>, ps: seq<Pid>): (added: seq<Pid>)
    ensures forall x :: x in added ==> x in all && x !in visited
    ensures forall p :: p in ps && p in all ==> p in visited || p in added
    decreases |all - visited|, |ps| + 1
  {
    if ps == [] then []
    else
      var first := Visit(all, children, visited, ps[0]);
      Shrinks(all, visited, Members(first));
      first + VisitAll(all, children, visited + Members(first), ps[1..])
  }

  function Members(ps: seq<Pid>): (s: set<Pid>)
    ensures forall x :: x in s <==> x in ps
  {
    set x | x in ps
  }

  lemma Shrinks(all: set<Pid>, visited: set<Pid>, more: set<Pid>)
    ensures |all - (visited + more)| <= |all - visited|
    ensures (exists x :: x in more && x in all && x !in visited) ==> |all - (visited + more)| < |all - visited|
  {
    var a, b := all - visited, all - (visited + more);
    assert a == b + (a - b);
    if x :| x in more && x in all && x !in visited {
      assert x in a - b;
    }
  }

  /** One turn of the loop over a list of processes. */
  lemma VisitAllStep(all: set<Pid>, children: Children, visited: set<Pid>, ps: seq<Pid>, i: nat)
    requires i < |ps|
    ensures var first := Visit(all, children, visited, ps[i]);
            VisitAll(all, children, visited, ps[i..]) == first + VisitAll(all, children, visited + Members(first), ps[i + 1..])
  {
    assert ps[i..][0] == ps[i] && ps[i..][1..] == ps[i + 1..];
  }

  // ---- Ancestors and subtrees ----

  /** The ancestor n steps up. */
  function Up(data: Snapshot, p: Pid, n: nat): (a: Option<Pid>)
    requires p in data
    ensures a.Some? ==> a.value in data
    decreases n
  {
    if n == 0 then Some(p)
    else
      match ParentOf(data, p)
      case None => None
      case Some(q) => Up(data, q, n - 1)
  }

  ghost predicate Descends(data: Snapshot, x: Pid, p: Pid)
    requires x in data
  {
    exists n: nat :: Up(data, x, n) == Some(p)
  }

  /** The process and everything below it. */
  ghost function Subtree(data: Snapshot, p: Pid): set<Pid> {
    set x | x in data && Descends(data, x, p)
  }

  /** The chain of parents ends at a process without a parent, instead of running into a cycle. */
  ghost predicate Rooted(data: Snapshot, p: Pid)
    requires p in data
  {
    exists n: nat :: Up(data, p, n).Some? && ParentOf(data, Up(data, p, n).value) == None
  }

  lemma {:induction false} UpNext(data: Snapshot, x: Pid, n: nat, p: Pid)
    requires x in data && p in data && Up(data, x, n).Some? && ParentOf(data, Up(data, x, n).value) == Some(p)
    ensures Up(data, x, n + 1) == Some(p)
    decreases n
  {
    if n > 0 {
      UpNext(data, ParentOf(data, x).value, n - 1, p);
    }
  }

  /** On the way up every process was listed under the next one, which is not known to have started later. */
  lemma {:induction false} StepsUp(data: Snapshot, x: Pid, n: nat)
    requires x in data && Up(data, x, n + 1).Some?
    ensures Up(data, x, n).Some? && ListedUnder(data, Up(data, x, n).value, Up(data, x, n + 1).value)
    decreases n
  {
    ParentIsListed(data);
    if n > 0 {
      StepsUp(data, ParentOf(data, x).value, n - 1);
    } else {
      assert Up(data, ParentOf(data, x).value, 0) == ParentOf(data, x);
    }
  }

  /** What is below a process: what is listed under it or under something below it. */
  lemma SubtreeSteps(data: Snapshot, root: Pid, c: Pid)
    requires root in data && c != root
    ensures c in Subtree(data, root) <==> exists p :: p in Subtree(data, root) && ListedUnder(data, c, p)
  {
    ParentIsListed(data);
    assert forall p :: ListedUnder(data, c, p) ==> c in data;
    hide ParentOf, ListedUnder;
    if c in Subtree(data, root) {
      var n: nat :| Up(data, c, n) == Some(root);
      var p := ParentOf(data, c).value;
      assert Up(data, p, n - 1) == Some(root);
    }
    if p :| p in Subtree(data, root) && ListedUnder(data, c, p) {
      var n: nat :| Up(data, p, n) == Some(root);
      assert Up(data, c, n + 1) == Some(root);
    }
  }

  /** A parent outside the visited processes, or none at all, is out of the question. */
  predicate ParentIn(data: Snapshot, visited: set<Pid>, p: Pid)
    requires p in data
  {
    ParentOf(data, p).None? || ParentOf(data, p).value in visited
  }

  ghost predicate ParentClosed(data: Snapshot, visited: set<Pid>) {
    forall x :: x in visited ==> x in data && ParentIn(data, visited, x)
  }

  /** Nothing below an unvisited process has been visited before it. */
  lemma {:induction false} NothingBelowVisited(data: Snapshot, visited: set<Pid>, p: Pid, x: Pid, n: nat)
    requires ParentClosed(data, visited) && p !in visited
    requires x in data && Up(data, x, n) == Some(p)
    ensures x !in visited
    decreases n
  {
    if n > 0 {
      NothingBelowVisited(data, visited, p, ParentOf(data, x).value, n - 1);
    }
  }

  // ---- What a visit does ----

  lemma DistinctConcat(a: seq<Pid>, b: seq<Pid>)
    requires Distinct(a) && Distinct(b) && forall x :: x in b ==> x !in a
    ensures Distinct(a + b)
  {
    var c := a + b;
    forall i, j | 0 <= i < j < |c| ensures c[i] != c[j] {
      if i < |a| <= j {
        assert c[j] == b[j - |a|] && c[j] in b && c[i] in a;
      }
    }
  }

  /** Once p is visited, its children are ready to be. */
  lemma KidsReady(data: Snapshot, children: Children, visited: set<Pid>, p: Pid)
    requires ChildrenOf(data, children) && ParentClosed(data, visited) && p in data && ParentIn(data, visited, p)
    ensures ParentClosed(data, visited + {p})
    ensures forall q :: q in ListOf(children, p) ==> q in data && ParentIn(data, visited + {p}, q)
  {
    hide ParentOf;
  }

  lemma {:induction false} VisitDistinct(all: set<Pid>, children: Children, visited: set<Pid>, p: Pid)
    ensures Distinct(Visit(all, children, visited, p))
    decreases |all - visited|, 0
  {
    if p !in visited && p in all {
      Shrinks(all, visited, {p});
      VisitAllDistinct(all, children, visited + {p}, ListOf(children, p));
      DistinctConcat([p], VisitAll(all, children, visited + {p}, ListOf(children, p)));
    }
  }

  lemma {:induction false} VisitAllDistinct(all: set<Pid>, children: Children, visited: set<Pid>, ps: seq<Pid>)
    ensures Distinct(VisitAll(all, children, visited, ps))
    decreases |all - visited|, |ps| + 1
  {
    if ps != [] {
      var first := Visit(all, children, visited, ps[0]);
      Shrinks(all, visited, Members(first));
      VisitDistinct(all, children, visited, ps[0]);
      VisitAllDistinct(all, children, visited + Members(first), ps[1..]);
      DistinctConcat(first, VisitAll(all, children, visited + Members(first), ps[1..]));
    }
  }

  /** Everything below the processes added has been visited by then. */
  ghost predicate ClosedBelow(data: Snapshot, visited: set<Pid>, added: seq<Pid>) {
    forall c :: c in data && ParentOf(data, c).Some? && ParentOf(data, c).value in added ==> c in visited || c in added
  }

  lemma {:induction false} VisitClosed(data: Snapshot, children: Children, visited: set<Pid>, p: Pid)
    requires ChildrenOf(data, children)
    ensures ClosedBelow(data, visited, Visit(data.Keys, children, visited, p))
    decreases |data.Keys - visited|, 0
  {
    if p !in visited && p in data {
      Shrinks(data.Keys, visited, {p});
      VisitAllClosed(data, children, visited + {p}, ListOf(children, p));
    }
  }

  lemma {:induction false} VisitAllClosed(data: Snapshot, children: Children, visited: set<Pid>, ps: seq<Pid>)
    requires ChildrenOf(data, children)
    ensures ClosedBelow(data, visited, VisitAll(data.Keys, children, visited, ps))
    decreases |data.Keys - visited|, |ps| + 1
  {
    if ps != [] {
      var first := Visit(data.Keys, children, visited, ps[0]);
      Shrinks(data.Keys, visited, Members(first));
      VisitClosed(data, children, visited, ps[0]);
      VisitAllClosed(data, children, visited + Members(first), ps[1..]);
    }
  }

  /** What a visit to an unvisited process adds, and that it is complete. */
  lemma VisitUnfolds(all: set<Pid>, children: Children, visited: set<Pid>, p: Pid)
    requires p in all && p !in visited
    ensures |all - (visited + {p})| < |all - visited|
    ensures Visit(all, children, visited, p) == [p] + VisitAll(all, children, visited + {p}, ListOf(children, p))
    ensures visited + {p} + Members(VisitAll(all, children, visited + {p}, ListOf(children, p)))
         == visited + Members(Visit(all, children, visited, p))
  {
    Shrinks(all, visited, {p});
    AddedMembers(visited, [p], VisitAll(all, children, visited + {p}, ListOf(children, p)));
    assert Members([p]) == {p};
  }

  lemma AddedMembers(visited: set<Pid>, a: seq<Pid>, b: seq<Pid>)
    ensures visited + Members(a) + Members(b) == visited + Members(a + b)
  {
  }

  lemma {:induction false} VisitParents(data: Snapshot, children: Children, visited: set<Pid>, p: Pid)
    requires ChildrenOf(data, children) && ParentClosed(data, visited) && p in data && ParentIn(data, visited, p)
    ensures ParentClosed(data, visited + Members(Visit(data.Keys, children, visited, p)))
    decreases |data.Keys - visited|, 0
  {
    if p !in visited {
      VisitUnfolds(data.Keys, children, visited, p);
      KidsReady(data, children, visited, p);
      hide ParentClosed, ChildrenOf, ParentIn, ListOf, Visit, VisitAll, Members;
      VisitAllParents(data, children, visited + {p}, ListOf(children, p));
    } else {
      assert visited + Members([]) == visited;
    }
  }

  lemma {:induction false} VisitAllParents(data: Snapshot, children: Children, visited: set<Pid>, ps: seq<Pid>)
    requires ChildrenOf(data, children) && ParentClosed(data, visited)
    requires forall p :: p in ps ==> p in data && ParentIn(data, visited, p)
    ensures ParentClosed(data, visited + Members(VisitAll(data.Keys, children, visited, ps)))
    decreases |data.Keys - visited|, |ps| + 1
  {
    if ps != [] {
      var first := Visit(data.Keys, children, visited, ps[0]);
      Shrinks(data.Keys, visited, Members(first));
      VisitParents(data, children, visited, ps[0]);
      var rest := VisitAll(data.Keys, children, visited + Members(first), ps[1..]);
      VisitAllParents(data, children, visited + Members(first), ps[1..]);
      assert visited + Members(first) + Members(rest) == visited + Members(first + rest);
    } else {
      assert visited + Members([]) == visited;
    }
  }

  lemma {:induction false} VisitDescends(data: Snapshot, children: Children, visited: set<Pid>, p: Pid, x: Pid)
    requires ChildrenOf(data, children) && x in Visit(data.Keys, children, visited, p)
    ensures x in data && Descends(data, x, p)
    decreases |data.Keys - visited|, 0
  {
    Shrinks(data.Keys, visited, {p});
    if x == p {
      assert Up(data, x, 0) == Some(p);
    } else {
      var q := VisitAllDescends(data, children, visited + {p}, ListOf(children, p), x);
      var n: nat :| Up(data, x, n) == Some(q);
      UpNext(data, x, n, p);
    }
  }

  lemma {:induction false} VisitAllDescends(data: Snapshot, children: Children, visited: set<Pid>, ps: seq<Pid>, x: Pid)
    returns (q: Pid)
    requires ChildrenOf(data, children) && x in VisitAll(data.Keys, children, visited, ps)
    ensures q in ps && x in data && Descends(data, x, q)
    decreases |data.Keys - visited|, |ps| + 1
  {
    var first := Visit(data.Keys, children, visited, ps[0]);
    Shrinks(data.Keys, visited, Members(first));
    if x in first {
      VisitDescends(data, children, visited, ps[0], x);
      q := ps[0];
    } else {
      q := VisitAllDescends(data, children, visited + Members(first), ps[1..], x);
    }
  }

  lemma {:induction false} SubtreeVisited(data: Snapshot, visited: set<Pid>, added: seq<Pid>, p: Pid, x: Pid, n: nat)
    requires ParentClosed(data, visited) && p !in visited && p in added && ClosedBelow(data, visited, added)
    requires x in data && Up(data, x, n) == Some(p)
    ensures x in added
    decreases n
  {
    NothingBelowVisited(data, visited, p, x, n);
    if n > 0 {
      SubtreeVisited(data, visited, added, p, ParentOf(data, x).value, n - 1);
    }
  }

  /** A visit to an unvisited process whose parent was visited adds exactly its subtree. */
  lemma VisitIsSubtree(data: Snapshot, children: Children, visited: set<Pid>, p: Pid)
    requires ChildrenOf(data, children) && ParentClosed(data, visited) && p in data && p !in visited
    ensures Members(Visit(data.Keys, children, visited, p)) == Subtree(data, p)
  {
    var added := Visit(data.Keys, children, visited, p);
    VisitClosed(data, children, visited, p);
    forall x | x in data && Descends(data, x, p) ensures x in added {
      var n: nat :| Up(data, x, n) == Some(p);
      SubtreeVisited(data, visited, added, p, x, n);
    }
    forall x | x in added ensures x in data && Descends(data, x, p) {
      VisitDescends(data, children, visited, p, x);
    }
  }

  // ---- Subtrees are contiguous ----

  /** The subtree of the k-th process is the stretch of the order that starts there. */
  ghost predicate Block(data: Snapshot, order: seq<Pid>, k: nat)
    requires k < |order|
  {
    exists m :: k < m <= |order| && Members(order[k..m]) == Subtree(data, order[k])
  }

  ghost predicate Contiguous(data: Snapshot, order: seq<Pid>) {
    forall k: nat :: k < |order| ==> Block(data, order, k)
  }

  lemma BlockLeft(data: Snapshot, a: seq<Pid>, b: seq<Pid>, k: nat)
    requires k < |a| && Block(data, a, k)
    ensures Block(data, a + b, k)
  {
    var m :| k < m <= |a| && Members(a[k..m]) == Subtree(data, a[k]);
    assert (a + b)[k..m] == a[k..m];
  }

  lemma BlockRight(data: Snapshot, a: seq<Pid>, b: seq<Pid>, k: nat)
    requires k < |b| && Block(data, b, k)
    ensures Block(data, a + b, |a| + k)
  {
    var m :| k < m <= |b| && Members(b[k..m]) == Subtree(data, b[k]);
    assert (a + b)[|a| + k..|a| + m] == b[k..m];
  }

  lemma ContiguousConcat(data: Snapshot, a: seq<Pid>, b: seq<Pid>)
    requires Contiguous(data, a) && Contiguous(data, b)
    ensures Contiguous(data, a + b)
  {
    forall k: nat | k < |a + b| ensures Block(data, a + b, k) {
      if k < |a| {
        BlockLeft(data, a, b, k);
      } else {
        BlockRight(data, a, b, k - |a|);
      }
    }
  }

  lemma WholeBlock(data: Snapshot, p: Pid, below: seq<Pid>)
    requires Members([p] + below) == Subtree(data, p) && Contiguous(data, below)
    ensures Contiguous(data, [p] + below)
  {
    hide Members, Subtree;
    var added := [p] + below;
    forall k: nat | k < |added| ensures Block(data, added, k) {
      if k > 0 {
        BlockRight(data, [p], below, k - 1);
      } else {
        assert added[0..|added|] == added;
      }
    }
  }

  lemma {:induction false} VisitContiguous(data: Snapshot, children: Children, visited: set<Pid>, p: Pid)
    requires ChildrenOf(data, children) && ParentClosed(data, visited) && p in data && ParentIn(data, visited, p)
    ensures Contiguous(data, Visit(data.Keys, children, visited, p))
    decreases |data.Keys - visited|, 0
  {
    if p !in visited {
      VisitUnfolds(data.Keys, children, visited, p);
      KidsReady(data, children, visited, p);
      VisitIsSubtree(data, children, visited, p);
      hide ParentClosed, ChildrenOf, ParentIn, ListOf, Visit, VisitAll, Members, Contiguous;
      VisitAllContiguous(data, children, visited + {p}, ListOf(children, p));
      WholeBlock(data, p, VisitAll(data.Keys, children, visited + {p}, ListOf(children, p)));
    }
  }

  lemma {:induction false} VisitAllContiguous(data: Snapshot, children: Children, visited: set<Pid>, ps: seq<Pid>)
    requires ChildrenOf(data, children) && ParentClosed(data, visited)
    requires forall p :: p in ps ==> p in data && ParentIn(data, visited, p)
    ensures Contiguous(data, VisitAll(data.Keys, children, visited, ps))
    decreases |data.Keys - visited|, |ps| + 1
  {
    if ps != [] {
      var first := Visit(data.Keys, children, visited, ps[0]);
      Shrinks(data.Keys, visited, Members(first));
      VisitContiguous(data, children, visited, ps[0]);
      VisitParents(data, children, visited, ps[0]);
      VisitAllContiguous(data, children, visited + Members(first), ps[1..]);
      ContiguousConcat(data, first, VisitAll(data.Keys, children, visited + Members(first), ps[1..]));
    }
  }

  // ---- The whole numbering ----

  /** First the trees below the roots, then whatever only hangs together in cycles. */
  function TreeOrder(all: set<Pid>, children: Children, roots: seq<Pid>, remaining: seq<Pid>): seq<Pid> {
    var trees := VisitAll(all, children, {}, roots);
    trees + VisitAll(all, children, Members(trees), remaining)
  }

  ghost predicate RootsOf(data: Snapshot, roots: seq<Pid>) {
    forall p :: p in roots <==> p in data && ParentOf(data, p).None?
  }

  ghost predicate RemainingOf(data: Snapshot, children: Children, roots: seq<Pid>, remaining: seq<Pid>) {
    forall p :: p in remaining <==> p in data && p !in VisitAll(data.Keys, children, {}, roots)
  }

  /** Every process gets one place in the order, cycles or not. */
  lemma OrderIsBijection(data: Snapshot, children: Children, roots: seq<Pid>, remaining: seq<Pid>)
    requires RemainingOf(data, children, roots, remaining)
    ensures Distinct(TreeOrder(data.Keys, children, roots, remaining))
    ensures Members(TreeOrder(data.Keys, children, roots, remaining)) == data.Keys
  {
    var trees := VisitAll(data.Keys, children, {}, roots);
    VisitAllDistinct(data.Keys, children, {}, roots);
    VisitAllDistinct(data.Keys, children, Members(trees), remaining);
    DistinctConcat(trees, VisitAll(data.Keys, children, Members(trees), remaining));
  }

  lemma {:induction false} RootedVisited(data: Snapshot, children: Children, roots: seq<Pid>, p: Pid, n: nat)
    requires ChildrenOf(data, children) && RootsOf(data, roots) && p in data
    requires Up(data, p, n).Some? && ParentOf(data, Up(data, p, n).value) == None
    ensures p in VisitAll(data.Keys, children, {}, roots)
    decreases n
  {
    hide Visit, VisitAll, ChildrenOf, Members;
    if n > 0 {
      hide RootsOf;
      VisitAllClosed(data, children, {}, roots);
      RootedVisited(data, children, roots, ParentOf(data, p).value, n - 1);
    }
  }

  /**
   The subtree of every process whose chain of parents ends is the stretch of the order that starts
   with the process.
   */
  lemma SubtreeIsInterval(data: Snapshot, children: Children, roots: seq<Pid>, remaining: seq<Pid>, p: Pid)
    returns (k: nat)
    requires ChildrenOf(data, children) && RootsOf(data, roots) && p in data && Rooted(data, p)
    ensures var order := TreeOrder(data.Keys, children, roots, remaining);
            k < |order| && order[k] == p && Block(data, order, k)
  {
    var n: nat :| Up(data, p, n).Some? && ParentOf(data, Up(data, p, n).value) == None;
    RootedVisited(data, children, roots, p, n);
    var trees := VisitAll(data.Keys, children, {}, roots);
    VisitAllContiguous(data, children, {}, roots);
    k :| 0 <= k < |trees| && trees[k] == p;
    BlockLeft(data, trees, VisitAll(data.Keys, children, Members(trees), remaining), k);
  }
}
