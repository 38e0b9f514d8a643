/** Validation of the flat form: names, restrictions on node kinds, edge references, and the
    depth-first search for dependency cycles. */
module ChainValidation {
  import opened Options
  import opened Graph
  import opened Chain
  import opened Settings

  // ---- What a valid chain is ----

  ghost predicate NamesOk(nodes: seq<Node>) {
    && (forall i :: 0 <= i < |nodes| ==> nodes[i].name != "")
    && (forall i, j :: 0 <= i < j < |nodes| ==> nodes[i].name != nodes[j].name)
  }

  predicate OneshotOk(n: Node) {
    n.oneshot ==> !n.exec && !n.scheduler && !n.health && !n.needParentReady
  }

  function SettingsOf(n: Node): NodeSettings {
    NodeSettings(n.log, n.logRotate, n.exec, n.oneshot, n.scheduler)
  }

  ghost predicate FormOk(n: Node) {
    SettingsOk(SettingsOf(n)) && !MixesForms(n) && OneshotOk(n) && EdgesOk(n)
  }

  /** j is the position of the k-th dependency of node i. */
  ghost predicate IsTarget(nodes: seq<Node>, i: nat, k: nat, j: nat)
    requires i < |nodes| && EdgesOk(nodes[i]) && k < |EdgesOf(nodes[i])|
  {
    j < |nodes| && nodes[j].name == EdgesOf(nodes[i])[k].name
  }

  ghost predicate EdgeRefersOk(nodes: seq<Node>, i: nat, k: nat)
    requires i < |nodes| && EdgesOk(nodes[i]) && k < |EdgesOf(nodes[i])|
  {
    exists j: nat :: IsTarget(nodes, i, k, j) && j != i && !nodes[j].exec && (nodes[i].exec ==> nodes[j].oneshot)
  }

  /** Everything ValidateChain checks before it looks for cycles. */
  ghost predicate WellFormed(nodes: seq<Node>) {
    && NamesOk(nodes)
    && (forall i :: 0 <= i < |nodes| ==> FormOk(nodes[i]))
    && (forall i, k :: 0 <= i < |nodes| && 0 <= k < |EdgesOf(nodes[i])| ==> EdgeRefersOk(nodes, i, k))
    && (forall i, j :: 0 <= i < j < |nodes| ==> !(nodes[i].exec && nodes[j].exec))
  }

  /** The position of a name, or the number of nodes if it is not there. */
  function Position(nodes: seq<Node>, name: string): (i: nat)
    ensures i <= |nodes| && (i < |nodes| ==> nodes[i].name == name)
    ensures i == |nodes| ==> forall j :: 0 <= j < |nodes| ==> nodes[j].name != name
  {
    if nodes == [] then 0
    else if nodes[0].name == name then 0
    else
      var i := Position(nodes[1..], name);
      assert i == |nodes| - 1 ==> forall j :: 0 <= j < |nodes| ==> nodes[j].name != name by {
        assert forall j :: 0 < j < |nodes| ==> nodes[j] == nodes[1..][j - 1];
      }
      i + 1
  }

  ghost function VertexOf(nodes: seq<Node>, n: Node): Vertex
    requires EdgesOk(n)
  {
    var edges := EdgesOf(n);
    Vertex(n.oneshot, n.exec, n.scheduler, n.optional,
           seq(|edges|, k requires 0 <= k < |edges| => Link(Position(nodes, edges[k].name), edges[k].waitFor)))
  }

  /** The graph the orchestrator runs. */
  ghost function GraphOf(nodes: seq<Node>): Graph
    requires forall i :: 0 <= i < |nodes| ==> EdgesOk(nodes[i])
  {
    seq(|nodes|, i requires 0 <= i < |nodes| => VertexOf(nodes, nodes[i]))
  }

  lemma TargetIsPosition(nodes: seq<Node>, i: nat, k: nat, j: nat)
    requires NamesOk(nodes) && i < |nodes| && EdgesOk(nodes[i]) && k < |EdgesOf(nodes[i])|
    requires IsTarget(nodes, i, k, j)
    ensures Position(nodes, EdgesOf(nodes[i])[k].name) == j
  {
    var p := Position(nodes, EdgesOf(nodes[i])[k].name);
    assert p < |nodes| && nodes[p].name == nodes[j].name;
  }

  // ---- The search ----

  datatype Visit = Unseen | OnStack | Done

  /** names is a closed walk in which each name depends on the one before it. */
  ghost predicate ClosedWalk(nodes: seq<Node>, names: seq<string>)
    requires forall i :: 0 <= i < |nodes| ==> EdgesOk(nodes[i])
  {
    && |names| >= 2 && names[0] == names[|names| - 1]
    && exists w: seq<nat> :: |w| == |names| && IsWalk(GraphOf(nodes), w)
                             && forall t :: 0 <= t < |w| ==> names[t] == nodes[w[t]].name
  }

  ghost predicate IsWalk(g: Graph, w: seq<nat>) {
    && (forall t :: 0 <= t < |w| ==> w[t] < |g|)
    && (forall t {:trigger DependsOn(g[w[t]], w[t - 1])} :: 1 <= t < |w| ==> DependsOn(g[w[t]], w[t - 1]))
  }

  /** The state of the search: the nodes on the stack are a path along dependencies, and a node
      that is done depends only on nodes done before it, as `rank` and `clock` record. */
  ghost predicate SearchOk(g: Graph, visit: seq<Visit>, path: seq<nat>, rank: seq<nat>, clock: nat) {
    && |visit| == |rank| == |g|
    && (forall k :: 0 <= k < |path| ==> path[k] < |g|)
    && (forall k {:trigger DependsOn(g[path[k - 1]], path[k])} ::
          1 <= k < |path| ==> DependsOn(g[path[k - 1]], path[k]))
    && (forall i :: 0 <= i < |g| ==> (visit[i] == OnStack <==> i in path))
    && (forall i, j {:trigger DependsOn(g[i], j)} ::
          0 <= i < |g| && 0 <= j < |g| && visit[i] == Done && DependsOn(g[i], j) ==>
            visit[j] == Done && rank[j] < rank[i])
    && (forall i :: 0 <= i < |g| && visit[i] == Done ==> rank[i] < clock)
  }

  lemma PushOk(g: Graph, visit: seq<Visit>, path: seq<nat>, rank: seq<nat>, clock: nat, i: nat)
    requires SearchOk(g, visit, path, rank, clock) && i < |g| && visit[i] == Unseen
    requires path != [] ==> DependsOn(g[path[|path| - 1]], i)
    ensures SearchOk(g, visit[i := OnStack], path + [i], rank, clock)
    ensures i !in path
  {
    var p := path + [i];
    forall k | 1 <= k < |p| ensures DependsOn(g[p[k - 1]], p[k]) {
      if k < |path| { assert DependsOn(g[path[k - 1]], path[k]); }
    }
    forall d | 0 <= d < |g| ensures visit[i := OnStack][d] == OnStack <==> d in p {
      assert p[|path|] == i;
      assert d in p <==> d in path || d == i;
    }
  }

  lemma PopOk(g: Graph, visit: seq<Visit>, path: seq<nat>, rank: seq<nat>, clock: nat, i: nat)
    requires SearchOk(g, visit, path + [i], rank, clock) && i !in path && Resolved(g) && i < |g|
    requires forall n :: 0 <= n < |g[i].links| ==> visit[g[i].links[n].dep] == Done
    ensures SearchOk(g, visit[i := Done], path, rank[i := clock], clock + 1)
  {
    var p := path + [i];
    assert p[|path|] == i;
    assert forall k :: 0 <= k < |path| ==> path[k] == p[k];
    forall k | 1 <= k < |path| ensures DependsOn(g[path[k - 1]], path[k]) {
      assert DependsOn(g[p[k - 1]], p[k]);
    }
    forall d | 0 <= d < |g| ensures d in p <==> d in path || d == i {
    }
  }

  /** Once every node is done, the order in which they were done is a topological rank. */
  lemma AllDoneIsRank(g: Graph, visit: seq<Visit>, path: seq<nat>, rank: seq<nat>, clock: nat)
    requires SearchOk(g, visit, path, rank, clock) && forall i :: 0 <= i < |g| ==> visit[i] == Done
    ensures IsRank(g, rank)
  {
  }

  lemma MakesClosedWalk(nodes: seq<Node>, names: seq<string>, w: seq<nat>)
    requires forall i :: 0 <= i < |nodes| ==> EdgesOk(nodes[i])
    requires |w| == |names| >= 2 && w[0] == w[|w| - 1] && IsWalk(GraphOf(nodes), w)
    requires forall t :: 0 <= t < |w| ==> names[t] == nodes[w[t]].name
    ensures ClosedWalk(nodes, names)
  {
  }

  lemma UniqueName(nodes: seq<Node>, i: nat, j: nat)
    requires NamesOk(nodes) && i < |nodes| && j < |nodes| && nodes[i].name == nodes[j].name
    ensures i == j
  {
  }

  lemma SameName(nodes: seq<Node>, i: nat, j: nat)
    requires WellFormed(nodes) && i < |nodes| && j < |nodes| && nodes[i].name == nodes[j].name
    ensures i == j
  {
  }

  lemma PathStep(g: Graph, visit: seq<Visit>, path: seq<nat>, rank: seq<nat>, clock: nat, k: nat)
    requires SearchOk(g, visit, path, rank, clock) && 1 <= k < |path|
    ensures path[k - 1] < |g| && DependsOn(g[path[k - 1]], path[k])
  {
  }

  lemma OnStackIsOnPath(g: Graph, visit: seq<Visit>, path: seq<nat>, rank: seq<nat>, clock: nat, j: nat)
    requires SearchOk(g, visit, path, rank, clock) && j < |g|
    ensures visit[j] == OnStack <==> j in path
  {
  }

  /** From `target`, down the stack from its top, to `target`. */
  method CycleNames(stack: seq<string>, target: string) returns (cycle: seq<string>, ghost k: nat)
    requires target in stack
    ensures k < |stack| && stack[k] == target && |cycle| == |stack| - k + 1 && cycle[0] == target
    ensures forall t :: 1 <= t < |cycle| ==> cycle[t] == stack[|stack| - t]
  {
    cycle := [target];
    var i := |stack| - 1;
    while i >= 0 && stack[i] != target
      invariant -1 <= i < |stack| && |cycle| == |stack| - i && cycle[0] == target
      invariant forall t :: 1 <= t < |cycle| ==> cycle[t] == stack[|stack| - t]
      invariant target in stack[..i + 1]
    {
      cycle := cycle + [stack[i]];
      i := i - 1;
    }
    k := i;
    cycle := cycle + [target];
  }

  lemma StackIsWalk(nodes: seq<Node>, g: Graph, visit: seq<Visit>, path: seq<nat>, rank: seq<nat>, clock: nat,
                    j: nat, k: nat, stack: seq<string>, cycle: seq<string>)
    requires forall i :: 0 <= i < |nodes| ==> EdgesOk(nodes[i])
    requires g == GraphOf(nodes) && SearchOk(g, visit, path, rank, clock) && j < |g| && k < |path| && path[k] == j
    requires DependsOn(g[path[|path| - 1]], j)
    requires |stack| == |path| && forall n :: 0 <= n < |path| ==> stack[n] == nodes[path[n]].name
    requires |cycle| == |path| - k + 1 && cycle[0] == nodes[j].name
    requires forall t :: 1 <= t < |cycle| ==> cycle[t] == stack[|stack| - t]
    ensures ClosedWalk(nodes, cycle)
  {
    hide EdgesOk, GraphOf, DependsOn;
    var n := |path|;
    var w := seq(|cycle|, t requires 0 <= t < |cycle| => if t == 0 then j else path[n - t]);
    forall t | 1 <= t < |w| ensures DependsOn(g[w[t]], w[t - 1]) {
      if t > 1 { PathStep(g, visit, path, rank, clock, n - t + 1); }
    }
    MakesClosedWalk(nodes, cycle, w);
  }

  lemma GraphResolved(nodes: seq<Node>, i: nat, k: nat)
    requires WellFormed(nodes) && i < |nodes| && k < |EdgesOf(nodes[i])|
    ensures var j := Position(nodes, EdgesOf(nodes[i])[k].name);
            j < |nodes| && j != i && !nodes[j].exec && (nodes[i].exec ==> nodes[j].oneshot)
    ensures GraphOf(nodes)[i].links[k] == Link(Position(nodes, EdgesOf(nodes[i])[k].name), EdgesOf(nodes[i])[k].waitFor)
  {
    assert EdgeRefersOk(nodes, i, k);
    var j: nat :| IsTarget(nodes, i, k, j) && j != i && !nodes[j].exec && (nodes[i].exec ==> nodes[j].oneshot);
    TargetIsPosition(nodes, i, k, j);
  }

  lemma LinkDepends(v: Vertex, k: nat)
    requires k < |v.links|
    ensures DependsOn(v, v.links[k].dep)
  {
  }

  lemma GraphIsResolved(nodes: seq<Node>)
    requires WellFormed(nodes)
    ensures Resolved(GraphOf(nodes))
  {
    var g := GraphOf(nodes);
    forall i, k | 0 <= i < |g| && 0 <= k < |g[i].links| ensures g[i].links[k].dep < |g| {
      GraphResolved(nodes, i, k);
    }
  }

  class CycleFinder {
    const nodes: seq<Node>
    const index: map<string, nat>
    ghost const g: Graph
    var visit: array<Visit>
    var stack: seq<string>
    ghost var path: seq<nat>    // the nodes on the stack
    ghost var rank: seq<nat>    // the order in which nodes were done
    ghost var clock: nat

    constructor (nodes: seq<Node>, index: map<string, nat>)
      requires WellFormed(nodes) && Indexes(index, nodes)
      ensures Valid() && this.nodes == nodes && this.index == index && path == [] && fresh(visit)
      ensures forall i :: 0 <= i < visit.Length ==> visit[i] == Unseen
    {
      this.nodes, this.index, g := nodes, index, GraphOf(nodes);
      visit := new Visit[|nodes|](_ => Unseen);
      stack, path, rank, clock := [], [], seq(|nodes|, _ => 0), 0;
      GraphIsResolved(nodes);
    }

    ghost predicate Static() {
      && WellFormed(nodes) && g == GraphOf(nodes) && Resolved(g) && Indexes(index, nodes) && |g| == |nodes|
      && forall i :: 0 <= i < |g| ==> EdgesOk(nodes[i]) && |g[i].links| == |EdgesOf(nodes[i])|
    }

    ghost predicate Valid()
      reads this, visit
    {
      && Static() && visit.Length == |rank| == |g|
      && SearchOk(g, visit[..], path, rank, clock)
      && |stack| == |path|
      && (forall k :: 0 <= k < |path| ==> path[k] < |nodes| && stack[k] == nodes[path[k]].name)
    }

    /** Nodes that were seen have not been touched since. */
    ghost predicate Keeps(was: seq<Visit>)
      reads this, visit
    {
      |was| == visit.Length && forall i :: 0 <= i < |was| && was[i] != Unseen ==> visit[i] == was[i]
    }

    method Push(i: nat)
      requires Valid() && i < |g| && visit[i] == Unseen
      requires path != [] ==> DependsOn(g[path[|path| - 1]], i)
      modifies this, visit
      ensures Valid() && visit == old(visit) && path == old(path) + [i] && i !in old(path)
      ensures visit[..] == old(visit[..])[i := OnStack]
    {
      hide WellFormed, GraphOf, Resolved, SearchOk;
      PushOk(g, visit[..], path, rank, clock, i);
      visit[i] := OnStack;
      stack, path := stack + [nodes[i].name], path + [i];
      assert visit[..] == old(visit[..])[i := OnStack];
    }

    method Pop(i: nat, ghost below: seq<nat>)
      requires Valid() && path == below + [i] && i !in below && i < |g|
      requires forall n :: 0 <= n < |g[i].links| ==> visit[g[i].links[n].dep] == Done
      modifies this, visit
      ensures Valid() && visit == old(visit) && path == below
      ensures visit[..] == old(visit[..])[i := Done]
    {
      hide WellFormed, GraphOf, SearchOk;
      PopOk(g, visit[..], below, rank, clock, i);
      assert forall k :: 0 <= k < |below| ==> below[k] == path[k];
      stack, path := stack[..|stack| - 1], below;
      rank, clock := rank[i := clock], clock + 1;
      visit[i] := Done;
      assert visit[..] == old(visit[..])[i := Done];
    }

    /** The position of the k-th dependency, looked up by name. */
    method Target(i: nat, ghost k: nat, name: string) returns (j: nat)
      requires Static() && i < |nodes| && k < |EdgesOf(nodes[i])| && name == EdgesOf(nodes[i])[k].name
      ensures j < |g| && k < |g[i].links| && j == g[i].links[k].dep
    {
      GraphResolved(nodes, i, k);
      j := index[name];
    }

    /** Names the cycle that an edge from the top of the stack back to j closes. */
    method CycleFrom(j: nat) returns (cycle: seq<string>)
      requires Valid() && j in path && DependsOn(g[path[|path| - 1]], j)
      ensures ClosedWalk(nodes, cycle)
    {
      hide SearchOk, ClosedWalk, WellFormed, GraphOf, EdgesOk, EdgesOf, DependsOn, Indexes, Resolved;
      ghost var p: nat :| p < |path| && path[p] == j;
      assert stack[p] == nodes[j].name;
      ghost var k;
      cycle, k := CycleNames(stack, nodes[j].name);
      OnStackIsOnPath(g, visit[..], path, rank, clock, j);
      SameName(nodes, path[k], j);
      StackIsWalk(nodes, g, visit[..], path, rank, clock, j, k, stack, cycle);
    }

    /** Pushes i, searches from its dependencies, pops it. */
    method Dfs(i: nat) returns (err: Option<ChainError>)
      requires Valid() && i < |g| && visit[i] == Unseen
      requires path != [] ==> DependsOn(g[path[|path| - 1]], i)
      modifies this, visit
      ensures visit == old(visit)
      ensures err.None? ==> Valid() && path == old(path) && visit[i] == Done && Keeps(old(visit[..]))
      ensures err.Some? ==> err.value.Cycle? && ClosedWalk(nodes, err.value.names)
      decreases Unseens(visit[..])
    {
      hide WellFormed, GraphOf, ClosedWalk, SearchOk, DependsOn, Indexes, EdgesOk, EdgesOf;
      Push(i);
      assert i in old(Unseens(visit[..]));
      var edges := CanonicalEdges(nodes[i]);
      for k := 0 to |edges.value|
        invariant Valid() && visit == old(visit) && path == old(path) + [i]
        invariant Unseens(visit[..]) < old(Unseens(visit[..])) && Keeps(old(visit[..]))
        invariant k <= |g[i].links| == |edges.value|
        invariant forall n :: 0 <= n < k ==> visit[g[i].links[n].dep] == Done
      {
        var j := Target(i, k, edges.value[k].name);
        LinkDepends(g[i], k);
        OnStackIsOnPath(g, visit[..], path, rank, clock, j);
        match visit[j]
        case Unseen =>
          err := Dfs(j);
          if err.Some? { return; }
        case OnStack =>
          var names := CycleFrom(j);
          return Some(Cycle(names));
        case Done =>
      }
      Pop(i, old(path));
      return None;
    }
  }

  ghost predicate Indexes(index: map<string, nat>, nodes: seq<Node>) {
    && (forall i :: 0 <= i < |nodes| ==> nodes[i].name in index && index[nodes[i].name] == i)
    && (forall n :: n in index ==> index[n] < |nodes| && nodes[index[n]].name == n)
  }

  ghost function Unseens(visit: seq<Visit>): set<nat> {
    set i: nat | i < |visit| && visit[i] == Unseen
  }

  // ---- Errors ----

  ghost predicate Names(nodes: seq<Node>, i: nat, name: string) {
    i < |nodes| && nodes[i].name == name
  }

  function CountExecs(nodes: seq<Node>): nat {
    if nodes == [] then 0 else CountExecs(nodes[..|nodes| - 1]) + if nodes[|nodes| - 1].exec then 1 else 0
  }

  /** The defect that an error reports is there. */
  ghost predicate ErrorHolds(nodes: seq<Node>, e: ChainError) {
    match e
    case EmptyName(i) => i < |nodes| && nodes[i].name == ""
    case DuplicateName(n) => exists i: nat, j: nat :: i < j && Names(nodes, i, n) && Names(nodes, j, n)
    case ChildrenAndDependsOn(n) =>
      exists i: nat :: Names(nodes, i, n) && nodes[i].children != [] && nodes[i].dependsOn != []
    case ChildrenAndEdges(n) =>
      exists i: nat :: Names(nodes, i, n) && nodes[i].children != [] && nodes[i].dependsOnEdges != []
    case BadSettings(n, why) => exists i: nat :: Names(nodes, i, n) && Defect(SettingsOf(nodes[i]), why)
    case OneshotWithExec(n) => exists i: nat :: Names(nodes, i, n) && nodes[i].oneshot && nodes[i].exec
    case OneshotWithScheduler(n) => exists i: nat :: Names(nodes, i, n) && nodes[i].oneshot && nodes[i].scheduler
    case OneshotWithHealth(n) => exists i: nat :: Names(nodes, i, n) && nodes[i].oneshot && nodes[i].health
    case OneshotWithNeedParentReady(n) =>
      exists i: nat :: Names(nodes, i, n) && nodes[i].oneshot && nodes[i].needParentReady
    case BothForms(n) => exists i: nat :: Names(nodes, i, n) && EdgeError(nodes[i], e)
    case UnknownWaitFor(n, _, _) => exists i: nat :: Names(nodes, i, n) && EdgeError(nodes[i], e)
    case UnknownDependency(n, d) =>
      exists i: nat, k: nat :: HasEdge(nodes, i, k, n, d) && forall j: nat :: !Names(nodes, j, d)
    case SelfDependency(n) => exists i: nat, k: nat :: HasEdge(nodes, i, k, n, n)
    case DependsOnExec(n, d) =>
      exists i: nat, k: nat, j: nat :: HasEdge(nodes, i, k, n, d) && Names(nodes, j, d) && nodes[j].exec
    case ExecDependsOn(n, d) => exists i: nat, k: nat, j: nat :: HasEdge(nodes, i, k, n, d) && nodes[i].exec
                                                  && Names(nodes, j, d) && !nodes[j].oneshot
    case ManyExecs(c) => c == CountExecs(nodes) && c > 1
    case Cycle(names) => WellFormed(nodes) && ClosedWalk(nodes, names)
  }

  /** The k-th edge of node i, called `name`, names `dep`. */
  ghost predicate HasEdge(nodes: seq<Node>, i: nat, k: nat, name: string, dep: string) {
    Names(nodes, i, name) && EdgesOk(nodes[i]) && k < |EdgesOf(nodes[i])| && EdgesOf(nodes[i])[k].name == dep
  }

  lemma {:induction false} TwoExecs(nodes: seq<Node>)
    ensures CountExecs(nodes) >= 1 ==> exists i :: 0 <= i < |nodes| && nodes[i].exec
    ensures CountExecs(nodes) > 1 <==> exists i, j :: 0 <= i < j < |nodes| && nodes[i].exec && nodes[j].exec
    ensures CountExecs(nodes) == 0 ==> forall i :: 0 <= i < |nodes| ==> !nodes[i].exec
  {
    if nodes != [] {
      var n := |nodes| - 1;
      var front := nodes[..n];
      TwoExecs(front);
      assert forall i :: 0 <= i < n ==> front[i] == nodes[i];
      if CountExecs(front) == 1 {
        var i :| 0 <= i < |front| && front[i].exec;
        assert nodes[i].exec;
      }
      if CountExecs(front) > 1 {
        var i, j :| 0 <= i < j < |front| && front[i].exec && front[j].exec;
        assert nodes[i].exec && nodes[j].exec;
      }
    }
  }

  /** A walk goes up in rank. */
  lemma {:induction false} WalkRises(g: Graph, w: seq<nat>, rank: seq<nat>, t: nat)
    requires IsWalk(g, w) && IsRank(g, rank) && 1 <= t < |w|
    ensures rank[w[0]] < rank[w[t]]
  {
    assert DependsOn(g[w[t]], w[t - 1]);
    if t > 1 { WalkRises(g, w, rank, t - 1); }
  }

  /** A reported cycle is one: no topological rank exists. */
  lemma ClosedWalkNoRank(nodes: seq<Node>, names: seq<string>)
    requires WellFormed(nodes) && ClosedWalk(nodes, names)
    ensures !Acyclic(GraphOf(nodes))
  {
    hide DependsOn, EdgesOf, OneshotOk, EdgeRefersOk, MixesForms;
    var w: seq<nat> :| |w| == |names| && IsWalk(GraphOf(nodes), w)
                       && forall t :: 0 <= t < |w| ==> names[t] == nodes[w[t]].name;
    SameName(nodes, w[0], w[|w| - 1]);
    if rank :| IsRank(GraphOf(nodes), rank) {
      WalkRises(GraphOf(nodes), w, rank, |w| - 1);
    }
  }

  lemma DuplicateRefutes(nodes: seq<Node>, name: string)
    requires ErrorHolds(nodes, DuplicateName(name))
    ensures !NamesOk(nodes)
  {
    var i: nat, j: nat :| i < j && Names(nodes, i, name) && Names(nodes, j, name);
    assert nodes[i].name == nodes[j].name;
  }

  lemma EdgeErrorRefutes(n: Node, e: ChainError)
    requires EdgeError(n, e)
    ensures !EdgesOk(n)
  {
  }

  lemma HasEdgeRefers(nodes: seq<Node>, i: nat, k: nat, n: string, d: string) returns (j: nat)
    requires WellFormed(nodes) && HasEdge(nodes, i, k, n, d)
    ensures j != i && Names(nodes, j, d) && !nodes[j].exec && (nodes[i].exec ==> nodes[j].oneshot)
    ensures forall m: nat :: Names(nodes, m, d) ==> m == j
  {
    GraphResolved(nodes, i, k);
    j := Position(nodes, EdgesOf(nodes[i])[k].name);
    forall m: nat | Names(nodes, m, d) ensures m == j { SameName(nodes, m, j); }
  }

  /** Every error is justified: a chain with the reported defect is not valid. */
  lemma ErrorRefutes(nodes: seq<Node>, e: ChainError)
    requires ErrorHolds(nodes, e)
    ensures !(WellFormed(nodes) && Acyclic(GraphOf(nodes)))
  {
    if WellFormed(nodes) {
      match e
      case DuplicateName(n) =>
        DuplicateRefutes(nodes, n);
      case BadSettings(n, why) =>
        var i: nat :| Names(nodes, i, n) && Defect(SettingsOf(nodes[i]), why);
        assert FormOk(nodes[i]);
        DefectRefutes(SettingsOf(nodes[i]), why);
      case BothForms(n) =>
        var i: nat :| Names(nodes, i, n) && EdgeError(nodes[i], e);
        EdgeErrorRefutes(nodes[i], e);
      case UnknownWaitFor(n, _, _) =>
        var i: nat :| Names(nodes, i, n) && EdgeError(nodes[i], e);
        EdgeErrorRefutes(nodes[i], e);
      case UnknownDependency(n, d) =>
        var i: nat, k: nat :| HasEdge(nodes, i, k, n, d) && forall j: nat :: !Names(nodes, j, d);
        var j := HasEdgeRefers(nodes, i, k, n, d);
      case SelfDependency(n) =>
        var i: nat, k: nat :| HasEdge(nodes, i, k, n, n);
        var j := HasEdgeRefers(nodes, i, k, n, n);
      case DependsOnExec(n, d) =>
        var i: nat, k: nat, m: nat :| HasEdge(nodes, i, k, n, d) && Names(nodes, m, d) && nodes[m].exec;
        var j := HasEdgeRefers(nodes, i, k, n, d);
      case ExecDependsOn(n, d) =>
        var i: nat, k: nat, m: nat :| HasEdge(nodes, i, k, n, d) && nodes[i].exec
                                      && Names(nodes, m, d) && !nodes[m].oneshot;
        var j := HasEdgeRefers(nodes, i, k, n, d);
      case ManyExecs(_) => TwoExecs(nodes);
      case Cycle(names) => ClosedWalkNoRank(nodes, names);
      case _ =>
    }
  }

  // ---- ValidateChain ----

  /** What the first loop checks. */
  ghost predicate NamesAndSettingsOk(nodes: seq<Node>) {
    NamesOk(nodes) && forall i :: 0 <= i < |nodes| ==> SettingsOk(SettingsOf(nodes[i])) && !MixesForms(nodes[i])
  }

  method CheckNames(nodes: seq<Node>) returns (err: Option<ChainError>, index: map<string, nat>)
    ensures err.None? <==> NamesAndSettingsOk(nodes)
    ensures err.None? ==> Indexes(index, nodes)
    ensures err.Some? ==> ErrorHolds(nodes, err.value)
  {
    hide SettingsOk, Defect;
    index := map[];
    for i := 0 to |nodes|
      invariant forall j :: 0 <= j < i ==> nodes[j].name != "" && nodes[j].name in index && index[nodes[j].name] == j
      invariant forall n :: n in index ==> index[n] < i && nodes[index[n]].name == n
      invariant forall j :: 0 <= j < i ==> SettingsOk(SettingsOf(nodes[j])) && !MixesForms(nodes[j])
    {
      var n := nodes[i];
      assert Names(nodes, i, n.name);
      if n.name == "" { return Some(EmptyName(i)), index; }
      if n.name in index {
        assert Names(nodes, index[n.name], n.name);
        DuplicateRefutes(nodes, n.name);
        return Some(DuplicateName(n.name)), index;
      }
      index := index[n.name := i];
      if |n.children| > 0 && |n.dependsOn| > 0 { return Some(ChildrenAndDependsOn(n.name)), index; }
      if |n.children| > 0 && |n.dependsOnEdges| > 0 { return Some(ChildrenAndEdges(n.name)), index; }
      var why := CheckSettings(SettingsOf(n));
      if why.Some? { return Some(BadSettings(n.name, why.value)), index; }
    }
    return None, index;
  }

  method CheckOneshots(nodes: seq<Node>) returns (err: Option<ChainError>)
    ensures err.None? <==> forall i :: 0 <= i < |nodes| ==> OneshotOk(nodes[i])
    ensures err.Some? ==> ErrorHolds(nodes, err.value)
  {
    for i := 0 to |nodes|
      invariant forall j :: 0 <= j < i ==> OneshotOk(nodes[j])
    {
      var n := nodes[i];
      assert Names(nodes, i, n.name);
      if n.oneshot {
        if n.exec { return Some(OneshotWithExec(n.name)); }
        if n.scheduler { return Some(OneshotWithScheduler(n.name)); }
        if n.health { return Some(OneshotWithHealth(n.name)); }
        if n.needParentReady { return Some(OneshotWithNeedParentReady(n.name)); }
      }
    }
    return None;
  }

  /** The first two demands on an edge: it resolves, and not to its own or an exec node. */
  ghost predicate RefersToOther(nodes: seq<Node>, i: nat, k: nat)
    requires i < |nodes| && EdgesOk(nodes[i]) && k < |EdgesOf(nodes[i])|
  {
    exists j: nat :: IsTarget(nodes, i, k, j) && j != i && !nodes[j].exec
  }

  /** What the edge loop checks. */
  ghost predicate AllRefer(nodes: seq<Node>) {
    && (forall i :: 0 <= i < |nodes| ==> EdgesOk(nodes[i]))
    && (forall i, k :: 0 <= i < |nodes| && 0 <= k < |EdgesOf(nodes[i])| ==> RefersToOther(nodes, i, k))
  }

  lemma BadEdge(nodes: seq<Node>, i: nat, k: nat, j: nat)
    requires NamesOk(nodes) && i < |nodes| && EdgesOk(nodes[i]) && k < |EdgesOf(nodes[i])|
    requires IsTarget(nodes, i, k, j) && (j == i || nodes[j].exec)
    ensures !RefersToOther(nodes, i, k)
  {
    if t: nat :| IsTarget(nodes, i, k, t) && t != i && !nodes[t].exec {
      UniqueName(nodes, t, j);
    }
  }

  method CheckEdges(nodes: seq<Node>, index: map<string, nat>) returns (err: Option<ChainError>)
    requires NamesOk(nodes) && Indexes(index, nodes)
    ensures err.None? <==> AllRefer(nodes)
    ensures err.Some? ==> ErrorHolds(nodes, err.value)
  {
    for i := 0 to |nodes|
      invariant forall j :: 0 <= j < i ==> EdgesOk(nodes[j])
      invariant forall j, k :: 0 <= j < i && 0 <= k < |EdgesOf(nodes[j])| ==> RefersToOther(nodes, j, k)
    {
      var edges := CanonicalEdges(nodes[i]);
      if edges.Err? {
        assert Names(nodes, i, nodes[i].name);
        return Some(edges.error);
      }
      err := CheckEdgesOf(nodes, index, i, edges.value);
      if err.Some? { return; }
    }
    return None;
  }

  method CheckEdgesOf(nodes: seq<Node>, index: map<string, nat>, i: nat, edges: seq<Edge>)
    returns (err: Option<ChainError>)
    requires NamesOk(nodes) && Indexes(index, nodes)
    requires i < |nodes| && EdgesOk(nodes[i]) && edges == EdgesOf(nodes[i])
    ensures err.None? <==> forall k :: 0 <= k < |edges| ==> RefersToOther(nodes, i, k)
    ensures err.Some? ==> ErrorHolds(nodes, err.value)
  {
    hide EdgesOf, EdgesOk;
    for k := 0 to |edges|
      invariant forall n :: 0 <= n < k ==> RefersToOther(nodes, i, n)
    {
      var dep := edges[k].name;
      assert HasEdge(nodes, i, k, nodes[i].name, dep);
      if dep !in index {
        assert forall j: nat :: !Names(nodes, j, dep);
        assert !RefersToOther(nodes, i, k) by {
          assert forall j: nat :: IsTarget(nodes, i, k, j) ==> Names(nodes, j, dep);
        }
        return Some(UnknownDependency(nodes[i].name, dep));
      }
      var j := index[dep];
      assert Names(nodes, j, dep) && IsTarget(nodes, i, k, j);
      if i == j {
        BadEdge(nodes, i, k, j);
        return Some(SelfDependency(nodes[i].name));
      }
      if nodes[j].exec {
        BadEdge(nodes, i, k, j);
        return Some(DependsOnExec(nodes[i].name, dep));
      }
    }
    return None;
  }

  lemma Resolves(nodes: seq<Node>, index: map<string, nat>, i: nat, k: nat)
    requires Indexes(index, nodes) && i < |nodes| && EdgesOk(nodes[i]) && k < |EdgesOf(nodes[i])|
    requires RefersToOther(nodes, i, k)
    ensures var dep := EdgesOf(nodes[i])[k].name;
            dep in index && IsTarget(nodes, i, k, index[dep]) && index[dep] != i && !nodes[index[dep]].exec
  {
    var t: nat :| IsTarget(nodes, i, k, t) && t != i && !nodes[t].exec;
    assert index[nodes[t].name] == t;
  }

  /** What the exec loop checks. */
  ghost predicate ExecsOk(nodes: seq<Node>)
    requires forall i :: 0 <= i < |nodes| ==> EdgesOk(nodes[i])
  {
    && (forall i, k :: 0 <= i < |nodes| && 0 <= k < |EdgesOf(nodes[i])| ==> EdgeRefersOk(nodes, i, k))
    && (forall i, j :: 0 <= i < j < |nodes| ==> !(nodes[i].exec && nodes[j].exec))
  }

  lemma BadExecEdge(nodes: seq<Node>, i: nat, k: nat, j: nat)
    requires NamesOk(nodes) && i < |nodes| && EdgesOk(nodes[i]) && k < |EdgesOf(nodes[i])|
    requires IsTarget(nodes, i, k, j) && nodes[i].exec && !nodes[j].oneshot
    ensures !EdgeRefersOk(nodes, i, k)
  {
    if t: nat :| IsTarget(nodes, i, k, t) && nodes[t].oneshot {
      UniqueName(nodes, t, j);
    }
  }

  method CheckExecs(nodes: seq<Node>, index: map<string, nat>) returns (err: Option<ChainError>)
    requires NamesOk(nodes) && Indexes(index, nodes) && AllRefer(nodes)
    ensures err.None? <==> ExecsOk(nodes)
    ensures err.Some? ==> ErrorHolds(nodes, err.value)
  {
    hide Indexes, RefersToOther, EdgesOk, EdgesOf;
    var count := 0;
    for i := 0 to |nodes|
      invariant count == CountExecs(nodes[..i])
      invariant forall j, k :: 0 <= j < i && 0 <= k < |EdgesOf(nodes[j])| ==> EdgeRefersOk(nodes, j, k)
    {
      assert nodes[..i + 1][..i] == nodes[..i];
      if nodes[i].exec { count := count + 1; }
      var edges := CanonicalEdges(nodes[i]);
      err := CheckExecEdges(nodes, index, i, edges.value);
      if err.Some? { return; }
    }
    assert nodes[..|nodes|] == nodes;
    TwoExecs(nodes);
    if count > 1 { return Some(ManyExecs(count)); }
    return None;
  }

  method CheckExecEdges(nodes: seq<Node>, index: map<string, nat>, i: nat, edges: seq<Edge>)
    returns (err: Option<ChainError>)
    requires NamesOk(nodes) && Indexes(index, nodes) && AllRefer(nodes) && i < |nodes| && edges == EdgesOf(nodes[i])
    ensures err.None? <==> forall k :: 0 <= k < |edges| ==> EdgeRefersOk(nodes, i, k)
    ensures err.Some? ==> ErrorHolds(nodes, err.value)
  {
    hide Indexes, RefersToOther, EdgesOk, EdgesOf;
    for k := 0 to |edges|
      invariant forall n :: 0 <= n < k ==> EdgeRefersOk(nodes, i, n)
    {
      var dep := edges[k].name;
      Resolves(nodes, index, i, k);
      var j := index[dep];
      assert IsTarget(nodes, i, k, j);
      if nodes[i].exec && !nodes[j].oneshot {
        assert HasEdge(nodes, i, k, nodes[i].name, dep) && Names(nodes, j, dep);
        BadExecEdge(nodes, i, k, j);
        return Some(ExecDependsOn(nodes[i].name, dep));
      }
    }
    return None;
  }

  method FindCycle(nodes: seq<Node>, index: map<string, nat>) returns (err: Option<ChainError>)
    requires WellFormed(nodes) && Indexes(index, nodes)
    ensures err.None? ==> Acyclic(GraphOf(nodes))
    ensures err.Some? ==> ErrorHolds(nodes, err.value)
  {
    hide WellFormed, GraphOf, ClosedWalk;
    var finder := new CycleFinder(nodes, index);
    for i := 0 to |nodes|
      invariant finder.Valid() && finder.nodes == nodes && finder.path == [] && fresh(finder) && fresh(finder.visit)
      invariant forall j :: 0 <= j < i ==> finder.visit[j] == Done
    {
      if finder.visit[i] == Unseen {
        err := finder.Dfs(i);
        if err.Some? { return; }
      }
      NoneOnStack(finder.g, finder.visit[..], finder.rank, finder.clock, i);
    }
    AllDoneIsRank(finder.g, finder.visit[..], finder.path, finder.rank, finder.clock);
    return None;
  }

  lemma NoneOnStack(g: Graph, visit: seq<Visit>, rank: seq<nat>, clock: nat, i: nat)
    requires SearchOk(g, visit, [], rank, clock) && i < |g|
    ensures visit[i] != OnStack
  {
  }

  /** Nil exactly for a well-formed chain whose graph has a topological rank; otherwise the error
      names a defect that is there, and for a cycle a closed walk. */
  method ValidateChain(nodes: seq<Node>) returns (err: Option<ChainError>)
    ensures err.None? <==> WellFormed(nodes) && Acyclic(GraphOf(nodes))
    ensures err.Some? ==> ErrorHolds(nodes, err.value)
  {
    hide Acyclic, GraphOf, EdgesOf, ErrorHolds, EdgeRefersOk, RefersToOther;
    if |nodes| == 0 {
      EmptyAcyclic(nodes);
      return None;
    }
    var index;
    err, index := CheckNames(nodes);
    if err.None? {
      err := CheckOneshots(nodes);
      if err.None? {
        err := CheckEdges(nodes, index);
        if err.None? {
          err := CheckExecs(nodes, index);
          if err.None? {
            err := FindCycle(nodes, index);
          }
        }
      }
    }
    if err.Some? { ErrorRefutes(nodes, err.value); }
  }

  lemma EmptyAcyclic(nodes: seq<Node>)
    requires nodes == []
    ensures Acyclic(GraphOf(nodes))
  {
    assert IsRank(GraphOf(nodes), []);
  }

  // ---- Trees ----

  /** A forest whose nodes declare no dependencies of their own. */
  ghost predicate Pure(ns: seq<Node>, k: nat)
    requires k <= |ns|
    decreases ns, |ns| - k
  {
    k < |ns| ==> ns[k].dependsOn == [] && ns[k].dependsOnEdges == [] && Pure(ns[k].children, 0) && Pure(ns, k + 1)
  }

  /** The i-th node depends on nothing but `parent` or a node before it. */
  ghost predicate ParentBefore(flat: seq<Node>, i: nat, parent: string)
    requires i < |flat|
  {
    && flat[i].dependsOnEdges == [] && |flat[i].dependsOn| <= 1
    && (flat[i].dependsOn != [] ==> (flat[i].dependsOn[0] == parent && parent != "")
                                    || exists j :: 0 <= j < i && flat[j].name == flat[i].dependsOn[0])
  }

  lemma ParentBeforeShifts(flat: seq<Node>, part: seq<Node>, offset: nat, i: nat, parent: string, top: string)
    requires i < |part| && offset + |part| <= |flat| && forall j :: 0 <= j < |part| ==> flat[offset + j] == part[j]
    requires ParentBefore(part, i, top)
    requires top == parent || exists j :: 0 <= j < offset && flat[j].name == top
    ensures ParentBefore(flat, offset + i, parent)
  {
    if j :| 0 <= j < i && part[i].dependsOn != [] && part[j].name == part[i].dependsOn[0] {
      assert flat[offset + j].name == part[i].dependsOn[0];
    }
  }

  /** In the flat form of such a forest a node depends on its parent alone, which comes before it. */
  lemma {:induction false} ParentComesFirst(ns: seq<Node>, k: nat, parent: string, i: nat)
    requires k <= |ns| && Pure(ns, k) && i < |Flatten(ns, k, parent)|
    ensures ParentBefore(Flatten(ns, k, parent), i, parent)
    decreases ns, |ns| - k
  {
    hide ParentBefore;
    var flat, below := Flatten(ns, k, parent), Flatten(ns[k].children, 0, ns[k].name);
    if i == 0 {
      DesugarPure(ns[k], parent, flat);
    } else if i <= |below| {
      ParentComesFirst(ns[k].children, 0, ns[k].name, i - 1);
      assert flat[0].name == ns[k].name;
      ParentBeforeShifts(flat, below, 1, i - 1, parent, ns[k].name);
    } else {
      var rest := Flatten(ns, k + 1, parent);
      ParentComesFirst(ns, k + 1, parent, i - 1 - |below|);
      ParentBeforeShifts(flat, rest, 1 + |below|, i - 1 - |below|, parent, parent);
    }
  }

  lemma DesugarPure(n: Node, parent: string, flat: seq<Node>)
    requires n.dependsOn == [] && n.dependsOnEdges == [] && flat != [] && flat[0] == Desugar(n, parent)
    ensures ParentBefore(flat, 0, parent)
  {
  }

  /** A pure tree, once its names are valid, never fails the cycle check. */
  lemma TreesAreAcyclic(c: Chain)
    requires c.nodes == [] && NormalizeOk(c) && Pure(c.roots, 0) && NamesOk(NormalForm(c).nodes)
    ensures forall names :: !ErrorHolds(NormalForm(c).nodes, Cycle(names))
  {
    var nodes := NormalForm(c).nodes;
    if WellFormed(nodes) {
      var g := GraphOf(nodes);
      var rank := seq(|g|, i => i);
      forall i, j | 0 <= i < |g| && 0 <= j < |g| && DependsOn(g[i], j) ensures rank[j] < rank[i] {
        TreeEdgeGoesBack(c, i, j);
      }
      assert IsRank(g, rank);
      forall names ensures !ErrorHolds(nodes, Cycle(names)) {
        if ClosedWalk(nodes, names) { ClosedWalkNoRank(nodes, names); }
      }
    }
  }

  lemma TreeEdgeGoesBack(c: Chain, i: nat, j: nat)
    requires c.nodes == [] && NormalizeOk(c) && Pure(c.roots, 0) && WellFormed(NormalForm(c).nodes)
    requires var g := GraphOf(NormalForm(c).nodes); i < |g| && j < |g| && DependsOn(g[i], j)
    ensures j < i
  {
    hide WellFormed, Pure, Flatten, Position;
    var nodes, flat := NormalForm(c).nodes, FlatNodes(c);
    ParentComesFirst(c.roots, 0, "", i);
    var k: nat :| k < |GraphOf(nodes)[i].links| && GraphOf(nodes)[i].links[k].dep == j;
    GraphResolved(nodes, i, k);
    assert EdgesOf(nodes[i])[k].name == flat[i].dependsOn[0];
    var m: nat :| m < i && flat[m].name == flat[i].dependsOn[0];
    SameName(nodes, m, j);
  }
}
