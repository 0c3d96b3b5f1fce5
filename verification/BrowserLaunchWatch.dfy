/** Which browser instance a network process belongs to, and whether a launch was handed over. */
module BrowserLaunchWatch {
  import opened Text
  import opened TickClock

  type Pid = nat

  datatype Identity = Identity(pid: Pid, time: nat)

  datatype Role = Unknown | Main | Network | Other

  datatype Node = Node(identity: Identity, parentPid: Pid, sessionId: nat, path: string, role: Role)

  datatype Instance = Instance(main: Node, networks: seq<Identity>)

  type Nodes = map<Pid, Node>

  ghost predicate Keyed(nodes: Nodes) {
    forall p :: p in nodes ==> nodes[p].identity.pid == p
  }

  /** The parent, if it is the same browser in the same session and not younger. */
  function Parent(lower: char -> char, node: Node, nodes: Nodes): Option<Node> {
    if node.parentPid !in nodes then None
    else
      var parent := nodes[node.parentPid];
      if parent.identity.pid != node.identity.pid && parent.identity.time != 0 && node.identity.time != 0 &&
         parent.identity.time <= node.identity.time && parent.sessionId == node.sessionId &&
         Lower(lower, parent.path) == Lower(lower, node.path)
      then Some(parent) else None
  }

  /** The process was started by the parent: the same browser in the same session, and not younger. */
  ghost predicate StartedBy(lower: char -> char, node: Node, nodes: Nodes, parent: Node) {
    && node.parentPid in nodes && nodes[node.parentPid] == parent
    && parent.identity.pid != node.identity.pid && 0 < parent.identity.time <= node.identity.time
    && parent.sessionId == node.sessionId && SameLetters(lower, parent.path, node.path)
  }

  lemma ParentStarted(lower: char -> char, node: Node, nodes: Nodes)
    ensures Parent(lower, node, nodes).None? <==> !exists parent :: StartedBy(lower, node, nodes, parent)
    ensures forall parent :: Parent(lower, node, nodes) == Some(parent) <==> StartedBy(lower, node, nodes, parent)
  {
    if node.parentPid in nodes {
      SameLowered(lower, nodes[node.parentPid].path, node.path);
      hide Lower, SameLetters;
      var parent := nodes[node.parentPid];
      assert Parent(lower, node, nodes).Some? <==> StartedBy(lower, node, nodes, parent);
    }
  }

  /** The ancestor n steps up. */
  function Ancestor(lower: char -> char, node: Node, nodes: Nodes, n: nat): Option<Node> {
    if n == 0 then Some(node)
    else
      match Ancestor(lower, node, nodes, n - 1)
      case None => None
      case Some(below) => Parent(lower, below, nodes)
  }

  /** All ancestors are the same browser in the same session, none of them younger. */
  lemma {:induction false} SameBrowser(lower: char -> char, node: Node, nodes: Nodes, n: nat)
    requires Ancestor(lower, node, nodes, n).Some?
    ensures var a := Ancestor(lower, node, nodes, n).value;
            && a.sessionId == node.sessionId && SameLetters(lower, a.path, node.path)
            && (n > 0 ==> 0 < a.identity.time <= node.identity.time)
            && (n > 0 ==> Ancestor(lower, node, nodes, n - 1).Some?)
            && (n > 0 ==> StartedBy(lower, Ancestor(lower, node, nodes, n - 1).value, nodes, a))
  {
    if n > 0 {
      SameBrowser(lower, node, nodes, n - 1);
      ParentStarted(lower, Ancestor(lower, node, nodes, n - 1).value, nodes);
      hide Parent;
    }
  }

  // ---- The nearest root ----

  type Roots = map<Pid, nat>

  ghost predicate IsRootAt(lower: char -> char, node: Node, nodes: Nodes, roots: Roots, n: nat) {
    var a := Ancestor(lower, node, nodes, n);
    a.Some? && a.value.identity.pid in roots
  }

  /** The first root on the way up, above the node itself. */
  ghost predicate NearestRoot(lower: char -> char, node: Node, nodes: Nodes, roots: Roots, n: nat) {
    n > 0 && IsRootAt(lower, node, nodes, roots, n) && forall m: nat :: 0 < m < n ==> !IsRootAt(lower, node, nodes, roots, m)
  }

  ghost predicate NoRoot(lower: char -> char, node: Node, nodes: Nodes, roots: Roots) {
    forall n: nat :: n > 0 ==> !IsRootAt(lower, node, nodes, roots, n)
  }

  /** The node belongs to the instance with this index. */
  ghost predicate BelongsTo(lower: char -> char, node: Node, nodes: Nodes, roots: Roots, index: nat) {
    exists n: nat :: NearestRoot(lower, node, nodes, roots, n) &&
      roots[Ancestor(lower, node, nodes, n).value.identity.pid] == index
  }

  lemma BelongsToOne(lower: char -> char, node: Node, nodes: Nodes, roots: Roots, i: nat, j: nat)
    requires BelongsTo(lower, node, nodes, roots, i) && BelongsTo(lower, node, nodes, roots, j)
    ensures i == j
  {
    var n: nat :| NearestRoot(lower, node, nodes, roots, n) && roots[Ancestor(lower, node, nodes, n).value.identity.pid] == i;
    var m: nat :| NearestRoot(lower, node, nodes, roots, m) && roots[Ancestor(lower, node, nodes, m).value.identity.pid] == j;
    assert n <= m && m <= n;
  }

  /** All ancestors of a node are among the visited ones once those are closed. */
  lemma {:induction false} StaysVisited(lower: char -> char, node: Node, nodes: Nodes, visited: set<Pid>, n: nat)
    requires Keyed(nodes) && n > 0
    requires Parent(lower, node, nodes).Some? ==> Parent(lower, node, nodes).value.identity.pid in visited
    requires forall p :: p in visited ==> p in nodes && (Parent(lower, nodes[p], nodes).Some? ==>
      Parent(lower, nodes[p], nodes).value.identity.pid in visited)
    ensures var a := Ancestor(lower, node, nodes, n); a.Some? ==> a.value.identity.pid in visited && a.value == nodes[a.value.identity.pid]
    decreases n
  {
    if n > 1 {
      StaysVisited(lower, node, nodes, visited, n - 1);
    }
  }

  /** Where a walk up the parents stands: it has come n steps and has not met a root. */
  ghost predicate Climbed(lower: char -> char, node: Node, nodes: Nodes, roots: Roots, visited: set<Pid>, n: nat, now: Node) {
    && Ancestor(lower, node, nodes, n) == Some(now)
    && (n > 0 ==> now.identity.pid in visited && now.identity.pid in nodes && now == nodes[now.identity.pid])
    && (n == 0 ==> visited == {})
    && (forall p :: p in visited ==> p in nodes && p !in roots)
    && (forall m: nat :: 0 < m <= n ==> !IsRootAt(lower, node, nodes, roots, m))
    && (n > 0 ==> Parent(lower, node, nodes).Some? && Parent(lower, node, nodes).value.identity.pid in visited)
    && (forall p {:trigger Parent(lower, nodes[p], nodes)} :: p in visited && p != now.identity.pid ==>
          Parent(lower, nodes[p], nodes).Some? && Parent(lower, nodes[p], nodes).value.identity.pid in visited)
  }

  lemma WalkEnds(lower: char -> char, node: Node, nodes: Nodes, roots: Roots, visited: set<Pid>, n: nat, now: Node)
    requires Keyed(nodes) && Climbed(lower, node, nodes, roots, visited, n, now)
    requires var up := Parent(lower, now, nodes); up.None? || up.value.identity.pid in visited
    ensures NoRoot(lower, node, nodes, roots)
  {
    hide Parent;
    forall m: nat | m > 0 ensures !IsRootAt(lower, node, nodes, roots, m) {
      StaysVisited(lower, node, nodes, visited, m);
    }
  }

  lemma WalkGoesOn(lower: char -> char, node: Node, nodes: Nodes, roots: Roots, visited: set<Pid>, n: nat, now: Node)
    requires Keyed(nodes) && Climbed(lower, node, nodes, roots, visited, n, now)
    requires var up := Parent(lower, now, nodes); up.Some? && up.value.identity.pid !in visited
    ensures var up := Parent(lower, now, nodes).value;
            if up.identity.pid in roots then NearestRoot(lower, node, nodes, roots, n + 1) && Ancestor(lower, node, nodes, n + 1) == Some(up)
            else Climbed(lower, node, nodes, roots, visited + {up.identity.pid}, n + 1, up)
  {
    var up := Parent(lower, now, nodes).value;
    assert up == nodes[now.parentPid] && up.identity.pid == now.parentPid;
    assert n > 0 || now == node;
    hide Parent, Keyed;
    assert Ancestor(lower, node, nodes, n + 1) == Some(up);
  }

  /** Climbs from a network process to the nearest root; a cycle of parents ends the walk. */
  method FindRoot(lower: char -> char, node: Node, nodes: Nodes, roots: Roots) returns (index: Option<nat>)
    requires Keyed(nodes)
    ensures index.Some? ==> BelongsTo(lower, node, nodes, roots, index.value)
    ensures index.None? ==> NoRoot(lower, node, nodes, roots)
  {
    var visited, ancestor := {}, node;
    ghost var n := 0;
    while true
      invariant Climbed(lower, node, nodes, roots, visited, n, ancestor)
      decreases |nodes.Keys - visited|
    {
      var up := Parent(lower, ancestor, nodes);
      hide BelongsTo, NoRoot, Keyed;
      if up.None? || up.value.identity.pid in visited {
        WalkEnds(lower, node, nodes, roots, visited, n, ancestor);
        return None;
      }
      WalkGoesOn(lower, node, nodes, roots, visited, n, ancestor);
      VisitedGrows(nodes.Keys, visited, up.value.identity.pid);
      hide Climbed, Parent, NearestRoot;
      ancestor := up.value;
      visited := visited + {ancestor.identity.pid};
      n := n + 1;
      if ancestor.identity.pid in roots {
        NearestBelongs(lower, node, nodes, roots, n, ancestor);
        return Some(roots[ancestor.identity.pid]);
      }
    }
  }

  lemma NearestBelongs(lower: char -> char, node: Node, nodes: Nodes, roots: Roots, n: nat, root: Node)
    requires NearestRoot(lower, node, nodes, roots, n) && Ancestor(lower, node, nodes, n) == Some(root)
    requires root.identity.pid in roots
    ensures BelongsTo(lower, node, nodes, roots, roots[root.identity.pid])
  {
  }

  lemma VisitedGrows(all: set<Pid>, visited: set<Pid>, p: Pid)
    requires p in all && p !in visited
    ensures |all - (visited + {p})| < |all - visited|
  {
    assert all - visited == (all - (visited + {p})) + {p};
  }

  // ---- All instances ----

  /** The nodes by number; a number listed twice stands for its last node. */
  function ByPid(processes: seq<Node>): (nodes: Nodes)
    ensures Keyed(nodes) && forall p :: p in nodes ==> nodes[p] in processes
    ensures forall node :: node in processes ==> node.identity.pid in nodes
  {
    if processes == [] then map[]
    else
      var last := processes[|processes| - 1];
      ByPid(processes[..|processes| - 1])[last.identity.pid := last]
  }

  ghost predicate DistinctPids(processes: seq<Node>) {
    forall i, j :: 0 <= i < j < |processes| ==> processes[i].identity.pid != processes[j].identity.pid
  }

  lemma {:induction false} ByPidDistinct(processes: seq<Node>, node: Node)
    requires DistinctPids(processes) && node in processes
    ensures ByPid(processes)[node.identity.pid] == node
    decreases |processes|
  {
    var i :| 0 <= i < |processes| && processes[i] == node;
    if i < |processes| - 1 {
      assert processes[..|processes| - 1][i] == node;
      ByPidDistinct(processes[..|processes| - 1], node);
    }
  }

  /** A browser's main process, or one of unknown role that no known process has started. */
  predicate IsMain(lower: char -> char, nodes: Nodes, node: Node) {
    && node.identity.pid != 0 && node.identity.time != 0
    && (node.role == Main || (node.role == Unknown && Parent(lower, node, nodes).None?))
  }

  function Mains(lower: char -> char, nodes: Nodes, processes: seq<Node>): seq<Node> {
    if processes == [] then []
    else
      var last := processes[|processes| - 1];
      Mains(lower, nodes, processes[..|processes| - 1]) + if IsMain(lower, nodes, last) then [last] else []
  }

  ghost predicate RootsOf(mains: seq<Node>, roots: Roots) {
    && (forall p :: p in roots ==> roots[p] < |mains| && mains[roots[p]].identity.pid == p)
    && forall i :: 0 <= i < |mains| ==> mains[i].identity.pid in roots
  }

  /** The network processes of one instance, in the order of the list. */
  ghost function NetworksOf(lower: char -> char, nodes: Nodes, roots: Roots, processes: seq<Node>, index: nat): seq<Identity> {
    if processes == [] then []
    else
      var last := processes[|processes| - 1];
      NetworksOf(lower, nodes, roots, processes[..|processes| - 1], index) +
        if last.role == Network && BelongsTo(lower, last, nodes, roots, index) then [last.identity] else []
  }

  ghost predicate OnlyMains(result: seq<Instance>, mains: seq<Node>) {
    |result| == |mains| && forall i :: 0 <= i < |result| ==> result[i] == Instance(mains[i], [])
  }

  lemma OneMoreMain(result: seq<Instance>, mains: seq<Node>, roots: Roots, node: Node)
    requires OnlyMains(result, mains) && RootsOf(mains, roots)
    ensures OnlyMains(result + [Instance(node, [])], mains + [node])
    ensures RootsOf(mains + [node], roots[node.identity.pid := |result|])
  {
  }

  method FindMains(lower: char -> char, processes: seq<Node>, nodes: Nodes) returns (result: seq<Instance>, roots: Roots)
    ensures OnlyMains(result, Mains(lower, nodes, processes)) && RootsOf(Mains(lower, nodes, processes), roots)
  {
    result, roots := [], map[];
    for i := 0 to |processes|
      invariant OnlyMains(result, Mains(lower, nodes, processes[..i]))
      invariant RootsOf(Mains(lower, nodes, processes[..i]), roots)
    {
      var node := processes[i];
      assert processes[..i + 1][..i] == processes[..i];
      hide OnlyMains, RootsOf, IsMain;
      if IsMain(lower, nodes, node) {
        OneMoreMain(result, Mains(lower, nodes, processes[..i]), roots, node);
        roots := roots[node.identity.pid := |result|];
        result := result + [Instance(node, [])];
      }
    }
    assert processes[..|processes|] == processes;
  }

  /** The networks found so far are those of the first processes. */
  ghost predicate Attached(lower: char -> char, nodes: Nodes, roots: Roots, mains: seq<Node>, processes: seq<Node>, result: seq<Instance>) {
    |result| == |mains| && forall k :: 0 <= k < |result| ==>
      result[k] == Instance(mains[k], NetworksOf(lower, nodes, roots, processes, k))
  }

  lemma AttachStep(lower: char -> char, nodes: Nodes, roots: Roots, mains: seq<Node>, processes: seq<Node>, node: Node,
      result: seq<Instance>, index: Option<nat>)
    requires Attached(lower, nodes, roots, mains, processes, result)
    requires node.role == Network && index.Some? ==> index.value < |result| && BelongsTo(lower, node, nodes, roots, index.value)
    requires index.None? ==> node.role != Network || NoRoot(lower, node, nodes, roots)
    ensures node.role == Network && index.Some? ==>
      var at := index.value;
      Attached(lower, nodes, roots, mains, processes + [node], result[at := result[at].(networks := result[at].networks + [node.identity])])
    ensures node.role != Network || index.None? ==> Attached(lower, nodes, roots, mains, processes + [node], result)
  {
    var more := processes + [node];
    assert more[..|more| - 1] == processes;
    assert NoRoot(lower, node, nodes, roots) ==> forall k: nat :: !BelongsTo(lower, node, nodes, roots, k);
    forall k: nat | k < |result|
      ensures NetworksOf(lower, nodes, roots, more, k) == NetworksOf(lower, nodes, roots, processes, k) +
        if node.role == Network && index == Some(k) then [node.identity] else []
    {
      if node.role == Network && BelongsTo(lower, node, nodes, roots, k) {
        if index.Some? {
          BelongsToOne(lower, node, nodes, roots, k, index.value);
        }
      }
    }
  }

  /** The main processes in order, each with exactly the network processes that belong to it. */
  ghost predicate AllInstances(lower: char -> char, processes: seq<Node>, result: seq<Instance>) {
    var nodes := ByPid(processes);
    exists roots: Roots ::
      RootsOf(Mains(lower, nodes, processes), roots) &&
      Attached(lower, nodes, roots, Mains(lower, nodes, processes), processes, result)
  }

  /**
   The browser instances: every network process is listed with the nearest root above it, and with
   no other.
   */
  method Instances(lower: char -> char, processes: seq<Node>) returns (result: seq<Instance>)
    ensures AllInstances(lower, processes, result)
  {
    var nodes := ByPid(processes);
    var found;
    result, found := FindMains(lower, processes, nodes);
    ghost var roots := found;
    ghost var mains := Mains(lower, nodes, processes);
    assert Attached(lower, nodes, roots, mains, [], result);
    assert processes[..0] == [] && processes[..|processes|] == processes;
    hide Mains, RootsOf, ByPid, Attached, NoRoot, BelongsTo, NetworksOf;
    for i := 0 to |processes|
      invariant Attached(lower, nodes, roots, mains, processes[..i], result)
    {
      assert processes[..i + 1] == processes[..i] + [processes[i]];
      result := Attach(lower, nodes, found, mains, processes[..i], processes[i], result);
    }
  }

  /** Lists a network process with its instance. */
  method Attach(lower: char -> char, nodes: Nodes, roots: Roots, ghost mains: seq<Node>, ghost processes: seq<Node>, node: Node,
      result: seq<Instance>) returns (now: seq<Instance>)
    requires Keyed(nodes) && RootsOf(mains, roots) && Attached(lower, nodes, roots, mains, processes, result)
    ensures Attached(lower, nodes, roots, mains, processes + [node], now)
  {
    now := result;
    var index: Option<nat> := None;
    if node.role == Network {
      index := FindRoot(lower, node, nodes, roots);
      BelongsWithin(lower, node, nodes, roots, mains, index);
    }
    AttachStep(lower, nodes, roots, mains, processes, node, result, index);
    assert |result| == |mains|;
    hide Attached, NoRoot, BelongsTo;
    if index.Some? {
      var at := index.value;
      now := result[at := result[at].(networks := result[at].networks + [node.identity])];
    }
  }

  lemma BelongsWithin(lower: char -> char, node: Node, nodes: Nodes, roots: Roots, mains: seq<Node>, index: Option<nat>)
    requires RootsOf(mains, roots)
    requires index.Some? ==> BelongsTo(lower, node, nodes, roots, index.value)
    ensures index.Some? ==> index.value < |mains|
  {
  }

  lemma {:induction false} MainsAreMains(lower: char -> char, nodes: Nodes, processes: seq<Node>, node: Node)
    ensures node in Mains(lower, nodes, processes) <==> node in processes && IsMain(lower, nodes, node)
    decreases |processes|
  {
    if processes != [] {
      var front, last := processes[..|processes| - 1], processes[|processes| - 1];
      MainsAreMains(lower, nodes, front, node);
      assert processes == front + [last];
    }
  }

  /** The main processes: known ones, and those of unknown role that nobody has started. */
  lemma MainsAre(lower: char -> char, nodes: Nodes, processes: seq<Node>, node: Node)
    ensures node in Mains(lower, nodes, processes) <==>
      && node in processes && node.identity.pid != 0 && node.identity.time != 0
      && (node.role == Main || (node.role == Unknown && !exists parent :: StartedBy(lower, node, nodes, parent)))
  {
    MainsAreMains(lower, nodes, processes, node);
    ParentStarted(lower, node, nodes);
    hide StartedBy, Parent;
  }

  /** A network process that belongs to an instance is the same browser in the same session as its main process, and not older. */
  lemma NetworkFits(lower: char -> char, node: Node, nodes: Nodes, roots: Roots, mains: seq<Node>, index: nat) returns (root: Node)
    requires Keyed(nodes) && BelongsTo(lower, node, nodes, roots, index) && RootsOf(mains, roots)
    ensures index < |mains| && root in nodes.Values && root.identity.pid == mains[index].identity.pid
    ensures root.sessionId == node.sessionId && SameLetters(lower, root.path, node.path)
    ensures 0 < root.identity.time <= node.identity.time
  {
    var n: nat :| NearestRoot(lower, node, nodes, roots, n) && roots[Ancestor(lower, node, nodes, n).value.identity.pid] == index;
    SameBrowser(lower, node, nodes, n);
    root := Ancestor(lower, node, nodes, n).value;
    assert StartedBy(lower, Ancestor(lower, node, nodes, n - 1).value, nodes, root);
    assert root in nodes.Values;
  }

  /** With every number listed once, a root is a number whose process starts an instance. */
  lemma RootsAreMains(lower: char -> char, processes: seq<Node>, roots: Roots, p: Pid)
    requires DistinctPids(processes) && RootsOf(Mains(lower, ByPid(processes), processes), roots)
    ensures p in roots <==> p in ByPid(processes) && IsMain(lower, ByPid(processes), ByPid(processes)[p])
  {
    var nodes := ByPid(processes);
    var mains := Mains(lower, nodes, processes);
    if p in roots {
      var node := mains[roots[p]];
      MainsAreMains(lower, nodes, processes, node);
      ByPidDistinct(processes, node);
    } else if p in nodes {
      MainsAreMains(lower, nodes, processes, nodes[p]);
      assert forall i :: 0 <= i < |mains| ==> mains[i].identity.pid != nodes[p].identity.pid;
    }
  }

  // ---- Instances that are not covered ----

  function Hooked(isHooked: Identity -> bool, networks: seq<Identity>): bool {
    forall network | network in networks :: isHooked(network)
  }

  /** A known main process that is hooked, with network processes that are all hooked. */
  function Covered(isHooked: Identity -> bool, instance: Instance): bool {
    instance.main.role == Main && isHooked(instance.main.identity) && instance.networks != [] && Hooked(isHooked, instance.networks)
  }

  /** It was there before, and something of it is not hooked. */
  function Incomplete(isHooked: Identity -> bool, existing: seq<Identity>, instance: Instance): bool {
    instance.main.identity in existing && !Covered(isHooked, instance)
  }

  /** A main process whose role is known, it and at least one network process hooked, and no network process that is not. */
  ghost predicate AllHooked(isHooked: Identity -> bool, instance: Instance) {
    instance.main.role == Main && isHooked(instance.main.identity) &&
    |instance.networks| > 0 && forall k :: 0 <= k < |instance.networks| ==> isHooked(instance.networks[k])
  }

  lemma IncompleteMeans(isHooked: Identity -> bool, existing: seq<Identity>, instance: Instance)
    ensures Incomplete(isHooked, existing, instance) <==> instance.main.identity in existing && !AllHooked(isHooked, instance)
  {
    if AllHooked(isHooked, instance) {
      forall network | network in instance.networks ensures isHooked(network) {
        var k :| 0 <= k < |instance.networks| && instance.networks[k] == network;
      }
    }
  }

  /** The result holds the incomplete ones, each as often and in the same order as the list it is taken from. */
  ghost predicate PickedInOrder(all: seq<Instance>, existing: seq<Identity>, isHooked: Identity -> bool,
      places: seq<nat>, result: seq<Instance>) {
    && |places| == |result|
    && (forall i, j :: 0 <= i < j < |places| ==> places[i] < places[j])
    && (forall k :: 0 <= k < |places| ==> places[k] < |all| && result[k] == all[places[k]])
    && (forall i :: 0 <= i < |all| ==> (i in places <==> all[i].main.identity in existing && !AllHooked(isHooked, all[i])))
  }

  lemma PickNext(all: seq<Instance>, existing: seq<Identity>, isHooked: Identity -> bool, places: seq<nat>,
      result: seq<Instance>, next: Instance)
    requires PickedInOrder(all, existing, isHooked, places, result)
    ensures if Incomplete(isHooked, existing, next) then
              PickedInOrder(all + [next], existing, isHooked, places + [|all|], result + [next])
            else PickedInOrder(all + [next], existing, isHooked, places, result)
  {
    hide Incomplete, AllHooked;
    IncompleteMeans(isHooked, existing, next);
    assert |all| !in places;
    var more := places + [|all|];
    assert forall i :: i in more <==> i in places || i == |all|;
  }

  method IncompleteInstances(lower: char -> char, processes: seq<Node>, existing: seq<Identity>, isHooked: Identity -> bool)
      returns (result: seq<Instance>)
    ensures exists all, places :: AllInstances(lower, processes, all) && PickedInOrder(all, existing, isHooked, places, result)
  {
    hide AllInstances, PickedInOrder;
    var all := Instances(lower, processes);
    ghost var places;
    result, places := OnlyIncomplete(all, existing, isHooked);
  }

  method OnlyIncomplete(all: seq<Instance>, existing: seq<Identity>, isHooked: Identity -> bool)
      returns (result: seq<Instance>, ghost places: seq<nat>)
    ensures PickedInOrder(all, existing, isHooked, places, result)
  {
    result, places := [], [];
    for i := 0 to |all|
      invariant PickedInOrder(all[..i], existing, isHooked, places, result)
    {
      assert all[..i + 1] == all[..i] + [all[i]];
      PickNext(all[..i], existing, isHooked, places, result, all[i]);
      var incomplete := IsIncomplete(isHooked, existing, all[i]);
      hide Incomplete, PickedInOrder;
      if incomplete {
        result, places := result + [all[i]], places + [i];
      }
    }
    assert all[..|all|] == all;
  }

  method IsIncomplete(isHooked: Identity -> bool, existing: seq<Identity>, instance: Instance) returns (incomplete: bool)
    ensures incomplete <==> Incomplete(isHooked, existing, instance)
  {
    var existed := Existed(instance.main.identity, existing);
    incomplete := existed;
    if existed {
      var covered := IsCovered(isHooked, instance);
      incomplete := !covered;
    }
  }

  method Existed(identity: Identity, existing: seq<Identity>) returns (existed: bool)
    ensures existed <==> identity in existing
  {
    existed := false;
    for k := 0 to |existing|
      invariant existed <==> identity in existing[..k]
    {
      assert existing[..k + 1] == existing[..k] + [existing[k]];
      if existing[k] == identity {
        existed := true;
      }
    }
    assert existing[..|existing|] == existing;
  }

  method IsCovered(isHooked: Identity -> bool, instance: Instance) returns (covered: bool)
    ensures covered <==> Covered(isHooked, instance)
  {
    var networks := instance.networks;
    var known := instance.main.role == Main && isHooked(instance.main.identity) && networks != [];
    covered := known;
    for k := 0 to |networks|
      invariant covered <==> known && Hooked(isHooked, networks[..k])
    {
      assert networks[..k + 1] == networks[..k] + [networks[k]];
      covered := covered && isHooked(networks[k]);
    }
    assert networks[..|networks|] == networks;
  }

  // ---- Whether a launch was handed over ----

  const OBSERVATION_MS: nat := 2500

  datatype Snapshot = Snapshot(complete: bool, creationTimes: map<Pid, nat>)

  datatype Observation = Observation(launched: Identity, started: nat, candidates: seq<Identity>)

  datatype Verdict = Pending | Discard | Suggest

  predicate Matches(snapshot: Snapshot, identity: Identity) {
    && snapshot.complete && identity.pid != 0 && identity.time != 0
    && identity.pid in snapshot.creationTimes && snapshot.creationTimes[identity.pid] == identity.time
  }

  /** The launched process is known to have ended: nothing has its number, or another process has. */
  predicate LaunchedEnded(observation: Observation, snapshot: Snapshot) {
    var pid := observation.launched.pid;
    snapshot.complete &&
    (pid !in snapshot.creationTimes || (snapshot.creationTimes[pid] != 0 && snapshot.creationTimes[pid] != observation.launched.time))
  }

  /** Another process than the launched one that the snapshot shows with the same time of creation. */
  predicate StillRuns(observation: Observation, snapshot: Snapshot, c: Identity) {
    && c.pid != observation.launched.pid && c.pid != 0 && c.time != 0
    && snapshot.complete && c.pid in snapshot.creationTimes && snapshot.creationTimes[c.pid] == c.time
  }

  /** A handover is suggested only if the launched process has ended in time and a candidate still runs. */
  method Evaluate(observation: Observation, now: nat, snapshot: Snapshot) returns (verdict: Verdict, candidates: seq<Identity>)
    ensures var launched, ended := observation.launched, LaunchedEnded(observation, snapshot);
            var inTime := launched.pid != 0 && launched.time != 0 && |observation.candidates| > 0 &&
                          Since(now, observation.started) <= OBSERVATION_MS;
            && (verdict == Suggest <==> inTime && ended && exists c :: c in observation.candidates && StillRuns(observation, snapshot, c))
            && (verdict == Pending <==> inTime && !ended)
            && (verdict == Suggest ==> forall c :: c in candidates <==> c in observation.candidates && StillRuns(observation, snapshot, c))
            && (verdict != Suggest ==> candidates == [])
  {
    candidates := [];
    if observation.launched.pid == 0 || observation.launched.time == 0 ||
       Since(now, observation.started) > OBSERVATION_MS || observation.candidates == [] {
      return Discard, candidates;
    }
    if !snapshot.complete {
      return Pending, candidates;
    }
    var pid := observation.launched.pid;
    if pid in snapshot.creationTimes &&
       (snapshot.creationTimes[pid] == 0 || snapshot.creationTimes[pid] == observation.launched.time) {
      return Pending, candidates;
    }
    var all := observation.candidates;
    for i := 0 to |all|
      invariant forall c :: c in candidates <==> c in all[..i] && c.pid != pid && Matches(snapshot, c)
    {
      assert all[..i + 1] == all[..i] + [all[i]];
      if all[i].pid != pid && Matches(snapshot, all[i]) {
        candidates := candidates + [all[i]];
      }
    }
    assert all[..|all|] == all;
    verdict := if candidates == [] then Discard else Suggest;
    if candidates != [] {
      assert candidates[0] in candidates;
    }
  }
}
